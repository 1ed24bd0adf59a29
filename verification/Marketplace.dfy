/** The simulator's cycle: parents inserted at once, children buffered, stock reserved and restocked, and
    what that means for the ledger and for every commit of a batch. */
module Marketplace {
  import opened Common
  import opened BatchWriter
  import opened StockLedger

  const MAX_INVENTORY_RESERVE_ATTEMPTS: nat := 5
  const DEFAULT_MAX_ATTEMPTS: nat := 10
  const LOW_STOCK_THRESHOLD: int := 20

  datatype OrderReference = OrderReference(order: nat, customer: nat, product: nat)

  datatype Features = Features(payments: bool, shipments: bool, reviews: bool)

  /** The steps of a cycle. */
  datatype CycleStep = CUSTOMER | SELLER | PRODUCT | WAREHOUSE | INVENTORY | ORDER | PAYMENT | SHIPMENT | REVIEW | RESTOCK

  const CATALOG_STEPS := [CUSTOMER, SELLER, PRODUCT, WAREHOUSE, INVENTORY]

  function Switched(on: bool, step: CycleStep): seq<CycleStep> {
    if on then [step] else []
  }

  function FollowUps(features: Features): seq<CycleStep> {
    Switched(features.payments, PAYMENT) + Switched(features.shipments, SHIPMENT) + Switched(features.reviews, REVIEW)
  }

  /** A whole cycle, in its fixed order. */
  function CycleSteps(features: Features): seq<CycleStep> {
    CATALOG_STEPS + [ORDER] + FollowUps(features) + [RESTOCK]
  }

  /** The cycle's steps by name: what there is to refer to comes before what refers to it, and each follow-up
      stands behind its switch. */
  lemma WholeCycle(features: Features)
    ensures CycleSteps(features) ==
            [CUSTOMER, SELLER, PRODUCT, WAREHOUSE, INVENTORY, ORDER]
            + (if features.payments then [PAYMENT] else []) + (if features.shipments then [SHIPMENT] else [])
            + (if features.reviews then [REVIEW] else []) + [RESTOCK]
  {
    var p, q, r := Switched(features.payments, PAYMENT), Switched(features.shipments, SHIPMENT), Switched(features.reviews, REVIEW);
    assert CATALOG_STEPS + [ORDER] == [CUSTOMER, SELLER, PRODUCT, WAREHOUSE, INVENTORY, ORDER];
    assert CATALOG_STEPS + [ORDER] + (p + q + r) == CATALOG_STEPS + [ORDER] + p + q + r;
  }

  /** The steps begun: all of them, or, up to one that raised, the first of them. */
  predicate Ran(before: seq<CycleStep>, now: seq<CycleStep>, whole: seq<CycleStep>, raised: bool) {
    if raised then before < now <= before + whole else now == before + whole
  }

  lemma RanThen(a: seq<CycleStep>, b: seq<CycleStep>, c: seq<CycleStep>, first: seq<CycleStep>, second: seq<CycleStep>, raised: bool)
    requires Ran(a, b, first, false) && Ran(b, c, second, raised)
    ensures Ran(a, c, first + second, raised)
  {
    ConcatAssociates(a, first, second);
  }

  lemma RanStopped(a: seq<CycleStep>, b: seq<CycleStep>, first: seq<CycleStep>, second: seq<CycleStep>)
    requires Ran(a, b, first, true)
    ensures Ran(a, b, first + second, true)
  {
    ConcatAssociates(a, first, second);
  }

  lemma OneRan(before: seq<CycleStep>, step: CycleStep, raised: bool)
    ensures Ran(before, before + [step], [step], raised)
  {
  }

  /** Three parts, the last one begun non-empty if it raised. */
  lemma ThreeRan(before: seq<CycleStep>, a: seq<CycleStep>, b: seq<CycleStep>, c: seq<CycleStep>)
    ensures a != [] ==> Ran(before, before + a, a + b + c, true)
    ensures b != [] ==> Ran(before, before + a + b, a + b + c, true)
    ensures c != [] ==> Ran(before, before + a + b + c, a + b + c, true)
    ensures Ran(before, before + a + b + c, a + b + c, false)
  {
    ConcatAssociates(before, a, b + c);
    ConcatAssociates(a, b, c);
    ConcatAssociates(before, a + b, c);
    ConcatAssociates(before, a, b);
  }

  /** A step that raised leaves the cycle short of its last step. */
  lemma StoppedShort(a: seq<CycleStep>, b: seq<CycleStep>, steps: seq<CycleStep>)
    requires Ran(a, b, steps, true)
    ensures Ran(a, b, steps + [RESTOCK], true) && |b| < |a| + |steps + [RESTOCK]|
  {
    RanStopped(a, b, steps, [RESTOCK]);
  }

  // ---- When a cycle tears a commit

  /** The rows an order adds before its movement reach the threshold: the next commit comes too early. */
  predicate OrderTears(pending: int, flushThreshold: int) {
    pending + 2 >= flushThreshold
  }

  /** In a cycle one row, the customer's address, comes before the order's. */
  predicate CycleTears(pending: int, flushThreshold: int) {
    OrderTears(PendingAfter(pending, flushThreshold, 1), flushThreshold)
  }

  /** The rows a cycle buffers: an address, an item, a history row, a movement, and one for each follow-up. */
  function RowsPerCycle(features: Features): nat {
    4 + |FollowUps(features)|
  }

  /** Whether a batch's k-th cycle, counted from zero, tears a commit: known from the settings alone. */
  predicate TearsAt(k: nat, flushThreshold: int, features: Features) {
    OrderTears((k * RowsPerCycle(features) + 1) % Max(flushThreshold, 1), flushThreshold)
  }

  predicate Tears(cycles: nat, flushThreshold: int, features: Features) {
    exists k | 0 <= k < cycles :: TearsAt(k, flushThreshold, features)
  }

  /** The simulator's own defaults, 1000 cycles, a threshold of 500 and all follow-ups, tear a commit: the
      72nd cycle's order finds 498 rows pending. */
  lemma DefaultsTear()
    ensures Tears(1000, 500, Features(true, true, true))
  {
    assert RowsPerCycle(Features(true, true, true)) == 7;
    assert TearsAt(71, 500, Features(true, true, true));
  }

  lemma CyclesInFlushes(q: int, m: int, c: int, r: int)
    requires 0 <= c < m && r >= 0
    ensures (q * m + c) * r == q * (m * r) + c * r && 0 <= c * r <= m * r - r
  {
    assert (q * m + c) * r == (q * m) * r + c * r;
    assert (m - 1 - c) * r >= 0;
  }

  lemma AlignedRest(k: nat, r: nat, m: nat, t: nat)
    requires m >= 1 && r >= 2 && t == m * r
    ensures t >= r && (k * r + 1) % t <= t - r + 1
  {
    var q, c := k / m, k % m;
    CyclesInFlushes(q, m, c, r);
    var rows, rest := k * r, c * r;
    assert rows == q * t + rest;
    RestUnique(rows + 1, t, q, rest + 1);
  }

  /** A threshold that is a multiple of the rows a cycle buffers never does. */
  lemma AlignedNeverTears(cycles: nat, flushThreshold: int, features: Features, cyclesPerFlush: nat)
    requires cyclesPerFlush >= 1 && flushThreshold == cyclesPerFlush * RowsPerCycle(features)
    ensures !Tears(cycles, flushThreshold, features)
  {
    forall k: nat
      ensures !TearsAt(k, flushThreshold, features)
    {
      AlignedRest(k, RowsPerCycle(features), cyclesPerFlush, flushThreshold);
    }
  }

  // ---- Stock rows

  /** Stock rows refer to rows that exist, and no stock is negative. */
  ghost predicate StockOk(inventories: map<nat, Stock>, existing: set<Ref>) {
    forall i | i in inventories :: RowOk(inventories[i], i, existing)
  }

  ghost predicate RowOk(stock: Stock, i: nat, existing: set<Ref>) {
    stock.available >= 0
    && {Ref.Inventory(i), Ref.Warehouse(stock.warehouse), Ref.Product(stock.product)} <= existing
  }

  predicate Stocked(inventories: map<nat, Stock>, warehouse: nat, product: nat) {
    exists i | i in inventories :: inventories[i].warehouse == warehouse && inventories[i].product == product
  }

  /** A pair that is stocked already stays as it is; otherwise a new row has the given stock. */
  ghost predicate StockAdded(before: map<nat, Stock>, after: map<nat, Stock>, ledger: Ledger, ledger': Ledger, id: nat, stock: Stock) {
    if Stocked(before, stock.warehouse, stock.product) then after == before && ledger' == ledger
    else id !in before && after == before[id := stock] && ledger' == ledger.Opened(id, stock)
  }

  /** At most one row opened, with the given id and opening stock, and nothing was refilled. */
  ghost predicate OneOpening(ledger: Ledger, ledger': Ledger, id: nat, available: int) {
    ledger' == ledger ||
    (id !in ledger.openings && exists w, p :: ledger' == ledger.Opened(id, Stock(w, p, available)))
  }

  lemma SomeOf(ids: seq<nat>)
    ensures ids != [] ==> exists id :: id in ids
  {
    if ids != [] {
      assert ids[0] in ids;
    }
  }

  lemma StockedMeans(inventories: map<nat, Stock>)
    ensures forall w, p :: Stocked(inventories, w, p) <==>
              exists i | i in inventories :: inventories[i].warehouse == w && inventories[i].product == p
  {
  }

  lemma SameStock(inventories: map<nat, Stock>, ledger: Ledger, id: nat, stock: Stock)
    requires Stocked(inventories, stock.warehouse, stock.product)
    ensures StockAdded(inventories, inventories, ledger, ledger, id, stock)
  {
  }

  lemma NotYetStocked(inventories: map<nat, Stock>, existing: set<Ref>, id: nat)
    requires StockOk(inventories, existing) && Ref.Inventory(id) !in existing
    ensures id !in inventories
  {
  }

  lemma ProductExists(pool: Pool, p: nat, existing: set<Ref>)
    requires pool.Exists(existing) && p in pool.products
    ensures Ref.Product(p) in existing
  {
  }

  predicate CanTake(inventories: map<nat, Stock>, inventory: nat, quantity: int) {
    inventory in inventories && inventories[inventory].available >= quantity
  }

  // ---- Why a cycle raises

  /** Of the references, stock rows and warehouses are the same. */
  ghost predicate SameStockRefs(before: set<Ref>, after: set<Ref>) {
    forall r: Ref | r.Warehouse? || r.Inventory? :: r in before <==> r in after
  }

  /** What a cycle does to warehouse and stock references: at most its own are added. */
  ghost predicate StockRefs(before: set<Ref>, after: set<Ref>, c: Chances, raised: bool) {
    && before <= after
    && (forall r: Ref | r in after && (r.Warehouse? || r.Inventory?) ::
          r in before || (r == Ref.Warehouse(c.ids(0)) && !c.codeTaken) || r == Ref.Inventory(c.ids(1)))
    && (!raised && !c.codeTaken ==> Ref.Warehouse(c.ids(0)) in after)
  }

  lemma OtherRef(existing: set<Ref>, ref: Ref)
    ensures SameStockRefs(existing, existing)
    ensures !ref.Warehouse? && !ref.Inventory? ==> SameStockRefs(existing, existing + {ref})
  {
  }

  lemma SameRefsThrough(a: set<Ref>, b: set<Ref>, c: set<Ref>, d: set<Ref>)
    requires SameStockRefs(a, b)
    ensures SameStockRefs(b, c) ==> SameStockRefs(a, c)
    ensures SameStockRefs(b, c) && SameStockRefs(c, d) ==> SameStockRefs(a, d)
  {
  }

  lemma RefsBefore(a: set<Ref>, b: set<Ref>, d: set<Ref>, inventories: map<nat, Stock>, c: Chances, raised: bool, picked: (nat, nat))
    requires a <= b && SameStockRefs(a, b)
    ensures StockRefs(b, d, c, raised) ==> StockRefs(a, d, c, raised)
    ensures StockRefs(a, b, c, true)
    ensures StockFails(a, inventories, c.ids, c.codeTaken, picked) <==> StockFails(b, inventories, c.ids, c.codeTaken, picked)
  {
  }

  lemma RefsAfter(a: set<Ref>, b: set<Ref>, d: set<Ref>, c: Chances, raised: bool)
    requires StockRefs(a, b, c, false) && b <= d && SameStockRefs(b, d)
    ensures StockRefs(a, d, c, raised)
  {
  }

  /** Categories, payment methods and carriers come from the seed and stay. */
  predicate SameSupplies(before: Pool, after: Pool) {
    after.categories == before.categories && after.paymentMethods == before.paymentMethods && after.carriers == before.carriers
  }

  ghost predicate NoWarehouse(existing: set<Ref>) {
    forall r | r in existing :: !r.Warehouse?
  }

  /** Every attempt at a customer, a seller or a product collided, or there is no category for the product. */
  ghost predicate PeopleFail(pool: Pool, attempts: nat -> Attempts) {
    || Exhausted(attempts(0).accepts, 10) || Exhausted(attempts(1).accepts, 10) || Exhausted(attempts(2).accepts, 10)
    || pool.categories == []
  }

  /** The warehouse's id is taken, there is no warehouse at all, or the id of the stock row is taken and its
      warehouse and product are not stocked yet. */
  ghost predicate StockFails(existing: set<Ref>, inventories: map<nat, Stock>, ids: nat -> nat, codeTaken: bool, picked: (nat, nat)) {
    || (!codeTaken && Ref.Warehouse(ids(0)) in existing)
    || (codeTaken && NoWarehouse(existing))
    || (Ref.Inventory(ids(1)) in existing && !Stocked(inventories, picked.0, picked.1))
  }

  /** No row had stock, and none was opened with some. */
  ghost predicate NothingToSell(inventories: map<nat, Stock>, opening: nat, picked: (nat, nat)) {
    NoStock(inventories) && (opening == 0 || Stocked(inventories, picked.0, picked.1))
  }

  /** All a cycle can raise for, by what it meets: the picked pair is the warehouse and product its stock row
      is for. */
  ghost predicate CycleFails(existing: set<Ref>, inventories: map<nat, Stock>, pool: Pool, c: Chances, features: Features, picked: (nat, nat)) {
    || PeopleFail(pool, c.attempts)
    || StockFails(existing, inventories, c.ids, c.codeTaken, picked)
    || NothingToSell(inventories, c.opening, picked)
    || Exhausted(c.attempts(3).accepts, 10)
    || (features.payments && pool.paymentMethods == []) || (features.shipments && pool.carriers == [])
  }

  /** A pair that is not stocked yet opens a row with its own id and opening stock; nothing else does. */
  ghost predicate OpensPicked(inventories: map<nat, Stock>, ledger: Ledger, ledger': Ledger, c: Chances, picked: (nat, nat)) {
    ledger'.openings ==
      if Stocked(inventories, picked.0, picked.1) then ledger.openings
      else ledger.openings[c.ids(1) := Stock(picked.0, picked.1, c.opening)]
  }

  lemma StockOpened(before: map<nat, Stock>, after: map<nat, Stock>, ledger: Ledger, ledger': Ledger, c: Chances, picked: (nat, nat))
    requires StockAdded(before, after, ledger, ledger', c.ids(1), Stock(picked.0, picked.1, c.opening))
    ensures NoStock(after) <==> NothingToSell(before, c.opening, picked)
    ensures OpensPicked(before, ledger, ledger', c, picked)
  {
    if !Stocked(before, picked.0, picked.1) {
      assert forall i | i in before :: i in after && after[i] == before[i];
      assert c.ids(1) in after && after[c.ids(1)].available == c.opening;
    }
  }

  lemma OpensStill(inventories: map<nat, Stock>, ledger: Ledger, followed: Ledger, refilled: Ledger, c: Chances, picked: (nat, nat))
    requires OpensPicked(inventories, ledger, followed, c, picked) && refilled.openings == followed.openings
    ensures OpensPicked(inventories, ledger, refilled, c, picked)
  {
  }

  ghost predicate NoStock(inventories: map<nat, Stock>) {
    forall i | i in inventories :: inventories[i].available <= 0
  }

  /** There is nothing to sell exactly when every row is down to zero. */
  lemma NothingInStock(inventories: map<nat, Stock>, existing: set<Ref>)
    requires StockOk(inventories, existing)
    ensures NoStock(inventories) <==> forall i | i in inventories :: inventories[i].available == 0
  {
    forall i | i in inventories
      ensures inventories[i].available >= 0
    {
      assert RowOk(inventories[i], i, existing);
    }
  }

  /** An update that asks for no more than its row was read to have was turned down. */
  ghost predicate Refused(inventories: map<nat, Stock>) {
    exists i, q | i in inventories && q <= inventories[i].available :: !CanTake(inventories, i, q)
  }

  /** A row that runs low if there is any, otherwise any row. */
  ghost predicate Neediest(inventories: map<nat, Stock>, i: nat) {
    && i in inventories
    && (inventories[i].available >= LOW_STOCK_THRESHOLD ==>
          forall j | j in inventories :: inventories[j].available >= LOW_STOCK_THRESHOLD)
  }

  /** One neediest row has this much more, and the ledger knows. */
  ghost predicate Restocked(before: map<nat, Stock>, after: map<nat, Stock>, q: int, ledger: Ledger, ledger': Ledger) {
    exists i | Neediest(before, i) ::
      after == Adjusted(before, i, q) && ledger' == ledger.Plus(Refill(i, q))
  }

  /** As long as some row has fewer than twenty, one of those is refilled. */
  lemma LowRowsFirst(inventories: map<nat, Stock>, i: nat, low: nat)
    requires Neediest(inventories, i) && low in inventories && inventories[low].available < 20
    ensures i in inventories && inventories[i].available < 20
  {
  }

  predicate OrderInserted(before: set<Ref>, after: set<Ref>, pool: Pool, order: nat) {
    after == before + {Ref.Order(order)} && pool.orders != [] && Last(pool.orders).order == order
  }

  /** With one writer the retry of a reservation is never needed. */
  lemma NeverRefused(inventories: map<nat, Stock>)
    ensures !Refused(inventories)
  {
  }

  /** What has been added to the tables an order writes to. */
  datatype Books = Books(items: seq<Row>, history: seq<Row>, movements: seq<Row>) {
    function WithOrder(o: OrderReference, i: nat, q: int): Books {
      Books(items + [OrderItem(o.order, o.product, q)], history + [OrderHistory(o.order)], movements + [Movement(i, o.order, q)])
    }
  }

  /** One order more: the quantity wanted, or all there is, left one row with stock, one item and one history row belong to it, and exactly
      one movement records it. */
  ghost predicate OneSold(before: map<nat, Stock>, after: map<nat, Stock>, wanted: nat, books: Books, books': Books, pool: Pool, pool': Pool) {
    exists i, q: int, o: OrderReference {:trigger books.WithOrder(o, i, q)} ::
      && i in before && before[i].available > 0 && q == Min(wanted, before[i].available) && o.product == before[i].product && o.customer in pool.customers
      && after == Adjusted(before, i, -q)
      && books' == books.WithOrder(o, i, q)
      && pool' == pool.(orders := pool.orders + [o])
  }

  /** The rows of one order agree: the movement takes one to five, out of a row that stocks the order's
      product, and item and history row are this order's. */
  ghost predicate Sale(item: Row, history: Row, movement: Row, order: OrderReference, openings: map<nat, Stock>) {
    && movement.Movement? && movement.order == order.order && 1 <= movement.quantity <= 5
    && movement.inventory in openings && openings[movement.inventory].product == order.product
    && item == OrderItem(order.order, order.product, movement.quantity)
    && history == OrderHistory(order.order)
  }

  /** Item by item, history row by history row and movement by movement, the books are the orders'. */
  ghost predicate Sales(books: Books, orders: seq<OrderReference>, openings: map<nat, Stock>) {
    && |books.items| == |books.history| == |books.movements| == |orders|
    && forall k | 0 <= k < |orders| :: Sale(books.items[k], books.history[k], books.movements[k], orders[k], openings)
  }

  /** The order a cycle adds. */
  ghost predicate OneSale(books: Books, books': Books, orders: seq<OrderReference>, orders': seq<OrderReference>, openings: map<nat, Stock>) {
    exists i, q: int, o: OrderReference {:trigger books.WithOrder(o, i, q)} ::
      && 1 <= q <= 5 && i in openings && openings[i].product == o.product
      && books' == books.WithOrder(o, i, q) && orders' == orders + [o]
  }

  lemma SoldIsSale(before: map<nat, Stock>, after: map<nat, Stock>, wanted: nat, books: Books, books': Books, pool: Pool, pool': Pool, ledger: Ledger)
    requires OneSold(before, after, wanted, books, books', pool, pool') && ledger.Explains(before, books.movements) && 1 <= wanted <= 5
    ensures OneSale(books, books', pool.orders, pool'.orders, ledger.openings)
  {
    var i, q: int, o: OrderReference {:trigger books.WithOrder(o, i, q)} :|
      && i in before && before[i].available > 0 && q == Min(wanted, before[i].available) && o.product == before[i].product && o.customer in pool.customers
      && after == Adjusted(before, i, -q)
      && books' == books.WithOrder(o, i, q)
      && pool' == pool.(orders := pool.orders + [o]);
    assert before[i] == ledger.Remaining(i, books.movements);
    assert books' == books.WithOrder(o, i, q);
  }

  lemma SaleHasOrder(books: Books, books': Books, orders: seq<OrderReference>, orders': seq<OrderReference>, openings: map<nat, Stock>)
    requires OneSale(books, books', orders, orders', openings)
    ensures orders' != []
  {
  }

  lemma MoreSales(books: Books, books': Books, orders: seq<OrderReference>, orders': seq<OrderReference>, before: Ledger, after: Ledger)
    requires Sales(books, orders, before.openings) && after.Extends(before)
    requires OneSale(books, books', orders, orders', after.openings)
    ensures Sales(books', orders', after.openings) && |orders'| == |orders| + 1
  {
    var i, q: int, o: OrderReference {:trigger books.WithOrder(o, i, q)} :|
      && 1 <= q <= 5 && i in after.openings && after.openings[i].product == o.product
      && books' == books.WithOrder(o, i, q) && orders' == orders + [o];
    forall k | 0 <= k < |orders'|
      ensures Sale(books'.items[k], books'.history[k], books'.movements[k], orders'[k], after.openings)
    {
      if k < |orders| {
        assert Sale(books.items[k], books.history[k], books.movements[k], orders[k], before.openings);
      }
    }
  }

  /** The ids that can be picked at random all exist. */
  datatype Pool = Pool(
    sellers: seq<nat>,
    categories: seq<nat>,
    customers: seq<nat>,
    products: seq<nat>,
    orders: seq<OrderReference>,
    paymentMethods: seq<nat>,
    carriers: seq<nat>)
  {
    ghost predicate Exists(existing: set<Ref>) {
      && (forall i | i in sellers :: Ref.Seller(i) in existing)
      && (forall i | i in categories :: Ref.Category(i) in existing)
      && (forall i | i in customers :: Ref.Customer(i) in existing)
      && (forall i | i in products :: Ref.Product(i) in existing)
      && (forall o | o in orders :: OrderExists(o, existing))
      && (forall i | i in paymentMethods :: Ref.PaymentMethod(i) in existing)
      && (forall i | i in carriers :: Ref.Carrier(i) in existing)
    }
  }

  ghost predicate OrderExists(order: OrderReference, existing: set<Ref>) {
    {Ref.Order(order.order), Ref.Customer(order.customer), Ref.Product(order.product)} <= existing
  }

  // ---- Insert and confirm

  predicate FirstAccepted(accepts: nat -> bool, k: nat) {
    accepts(k) && forall j | 0 <= j < k :: !accepts(j)
  }

  predicate Exhausted(accepts: nat -> bool, attempts: nat) {
    forall k | 0 <= k < attempts :: !accepts(k)
  }

  /** Generate and insert until a row comes back, at most maxAttempts times; the first that is accepted wins. */
  method InsertWithUniqueRetry(accepts: nat -> bool, maxAttempts: nat) returns (attempt: Option<nat>)
    ensures attempt.Some? ==> attempt.value < maxAttempts && FirstAccepted(accepts, attempt.value)
    ensures attempt.Some? ==> accepts(attempt.value) && forall j | 0 <= j < attempt.value :: !accepts(j)
    ensures attempt.None? <==> Exhausted(accepts, maxAttempts)
    ensures attempt.None? ==> forall k | 0 <= k < maxAttempts :: !accepts(k)
  {
    var k := 0;
    while k < maxAttempts
      invariant 0 <= k <= maxAttempts && forall j | 0 <= j < k :: !accepts(j)
    {
      if accepts(k) {
        return Some(k);
      }
      k := k + 1;
    }
    return None;
  }

  /** The identifiers an insert generates and the attempts the database accepts. */
  datatype Attempts = Attempts(ids: nat -> nat, accepts: nat -> bool)

  /** What a cycle meets: accepted attempts, generated ids, conflicts, and rolls: the opening stock of a new row,
      the quantity wanted, whether to restock and by how much. */
  datatype Chances = Chances(attempts: nat -> Attempts, ids: nat -> nat, codeTaken: bool, opening: nat, wanted: nat, skipRestock: bool, refill: int)
  {
    ghost predicate Rolled() {
      1 <= wanted <= 5 && 50 <= refill <= 200
    }
  }

  class Market {
    const db: Database
    const writer: Writer
    var pool: Pool
    /** How every stock row opened and what it was refilled with. */
    ghost var ledger: Ledger
    /** The steps begun so far. */
    ghost var steps: seq<CycleStep>

    ghost predicate Valid()
      reads this, db, writer, writer.connection`statements
    {
      && writer.connection == db && writer.Valid()
      && 0 <= writer.pending < Max(writer.flushThreshold, 1)
      && ledger.openings.Keys == db.inventories.Keys && ledger.Legal()
      && StockOk(db.inventories, db.existing)
      && pool.Exists(db.existing)
      && TablesOk()
    }

    /** Everything every table has been given refers to rows that exist. */
    ghost predicate TablesOk()
      reads db`existing, writer`rows, writer.connection`statements
    {
      forall t :: ParentsIn(writer.Added(t), db.existing)
    }

    /** Every row is what the ledger and the movements, sent or buffered, say. */
    ghost predicate Balanced()
      reads this`ledger, db`inventories, writer`rows, writer.connection`statements
    {
      ledger.Explains(db.inventories, Movements())
    }

    /** A quantity has left a row and no movement records it yet. */
    ghost predicate Short(i: nat, quantity: int)
      reads this`ledger, db`inventories, writer`rows, writer.connection`statements
    {
      && i in db.inventories && 1 <= quantity <= 5
      && ledger.Explains(Adjusted(db.inventories, i, quantity), Movements())
    }

    ghost function Movements(): seq<Row>
      reads writer`rows, writer.connection`statements
    {
      writer.Added(INVENTORY_MOVEMENTS)
    }

    ghost function OrderBooks(): Books
      reads writer`rows, writer.connection`statements
    {
      Books(writer.Added(ORDER_ITEMS), writer.Added(ORDER_STATUS_HISTORY), Movements())
    }

    lemma BalancedMeans()
      requires Valid() && Balanced()
      ensures ledger.Explains(db.inventories, OrderBooks().movements) && ledger.openings.Keys == db.inventories.Keys
    {
    }

    lemma LegalNow()
      requires Valid()
      ensures ledger.Legal()
    {
    }

    /** A new connection, writer and pool over the rows of earlier batches. */
    constructor (db: Database, flushThreshold: int, paymentMethods: seq<nat>, carriers: seq<nat>, categories: seq<nat>)
      requires db.statements == [] && StockOk(db.inventories, db.existing)
      requires Pool([], categories, [], [], [], paymentMethods, carriers).Exists(db.existing)
      ensures this.db == db && fresh(writer) && writer.flushThreshold == flushThreshold && writer.pending == 0
      ensures OrderBooks() == Books([], [], [])
      ensures Valid() && Balanced() && pool == Pool([], categories, [], [], [], paymentMethods, carriers)
      ensures ledger == Ledger(db.inventories, []) && steps == []
    {
      this.db := db;
      writer := new Writer(db, flushThreshold);
      pool := Pool([], categories, [], [], [], paymentMethods, carriers);
      ledger := Ledger(db.inventories, []);
      steps := [];
    }

    /** Insert a parent row immediately. */
    method Insert(ref: Ref)
      requires Valid()
      modifies db`existing
      ensures Valid() && db.existing == old(db.existing) + {ref}
      ensures old(Balanced()) ==> Balanced()
    {
      db.existing := db.existing + {ref};
      BuffersGrow(writer.tables, writer.rows, old(db.existing), db.existing);
      forall t
        ensures ParentsIn(writer.Added(t), db.existing)
      {
        assert ParentsIn(old(writer.Added(t)), old(db.existing));
      }
    }

    /** Buffer a child row. Only the three rows of an order touch its books, and only a movement the ledger;
        a commit a row causes has everything added so far in its tables. */
    method Buffer(row: Row)
      requires Valid() && row.Parents() <= db.existing
      modifies writer, db`statements, db`commits
      ensures Valid()
      ensures forall t :: writer.Added(t) == With(old(writer.Added(t)), t, row)
      ensures writer.pending == PendingAfter(old(writer.pending), writer.flushThreshold, 1)
      ensures db.commits == old(db.commits) +
              if old(writer.pending) + 1 >= writer.flushThreshold then [Tables(db.inventories, db.statements)] else []
      ensures old(writer.pending) + 1 >= writer.flushThreshold ==> SentTo(db.statements, INVENTORY_MOVEMENTS) == Movements()
    {
      hide BuffersOk, StockOk, Total, Pool.Exists, ParentsIn, Ledger.Explains, Ledger.Legal;
      forall t
        ensures ParentsIn(With(writer.Added(t), t, row), db.existing)
      {
        assert ParentsIn(writer.Added(t), db.existing);
        ParentsAppend(writer.Added(t), row, db.existing);
      }
      writer.Add(row);
      if old(writer.pending) + 1 >= writer.flushThreshold {
        writer.AddedIsSent(INVENTORY_MOVEMENTS);
      }
    }

    /** A child row that is no part of an order. */
    method BufferAside(row: Row)
      requires Valid() && Balanced() && row.Parents() <= db.existing
      requires row.Address? || row.Payment? || row.Shipment? || row.Review?
      modifies writer, db`statements, db`commits
      ensures Valid() && Balanced() && OrderBooks() == old(OrderBooks())
      ensures writer.Added(row.Table()) == old(writer.Added(row.Table())) + [row]
      ensures writer.pending == PendingAfter(old(writer.pending), writer.flushThreshold, 1)
      ensures old(db.commits) <= db.commits && AllAccounted(db.commits, |old(db.commits)|, ledger)
    {
      hide Valid, Accounted, Ledger.Explains, PendingAfter;
      Buffer(row);
      if old(writer.pending) + 1 >= writer.flushThreshold {
        BalancedIsAccounted(Tables(db.inventories, db.statements), ledger);
      }
    }

    method CreateCustomer(c: Attempts) returns (raised: bool)
      requires Valid() && Balanced()
      modifies this`steps, this`pool, writer, db`existing, db`statements, db`commits
      ensures steps == old(steps) + [CUSTOMER]
      ensures Valid() && Balanced() && db.existing >= old(db.existing) && OrderBooks() == old(OrderBooks())
      ensures raised <==> Exhausted(c.accepts, DEFAULT_MAX_ATTEMPTS)
      ensures raised ==> pool == old(pool) && db.existing == old(db.existing) && unchanged(writer)
      ensures !raised ==> exists k | FirstAccepted(c.accepts, k) ::
                && db.existing == old(db.existing) + {Ref.Customer(c.ids(k))}
                && pool == old(pool).(customers := old(pool).customers + [c.ids(k)])
                && writer.Added(CUSTOMER_ADDRESSES) == old(writer.Added(CUSTOMER_ADDRESSES)) + [Address(c.ids(k))]
      ensures !raised ==> writer.pending == PendingAfter(old(writer.pending), writer.flushThreshold, 1)
      ensures old(db.commits) <= db.commits && AllAccounted(db.commits, |old(db.commits)|, ledger)
      ensures SameStockRefs(old(db.existing), db.existing)
    {
      hide Writer.Valid, TablesOk, StockOk, Ledger.Explains, Ledger.Legal, FirstAccepted, Exhausted, SameStockRefs, AllAccounted, PendingAfter;
      NoCommits(db.commits, ledger);
      OtherRef(db.existing, Ref.Order(0));
      steps := steps + [CUSTOMER];
      var attempt := InsertWithUniqueRetry(c.accepts, DEFAULT_MAX_ATTEMPTS);
      if attempt.None? {
        return true;
      }
      var id := c.ids(attempt.value);
      OtherRef(db.existing, Ref.Customer(id));
      Insert(Ref.Customer(id));
      pool := pool.(customers := pool.customers + [id]);
      BufferAside(Address(id));
      return false;
    }

    method CreateSeller(c: Attempts) returns (raised: bool)
      requires Valid() && Balanced()
      modifies this`steps, this`pool, db`existing
      ensures steps == old(steps) + [SELLER]
      ensures Valid() && Balanced() && db.existing >= old(db.existing)
      ensures raised <==> Exhausted(c.accepts, DEFAULT_MAX_ATTEMPTS)
      ensures raised ==> pool == old(pool) && db.existing == old(db.existing)
      ensures !raised ==> exists k | FirstAccepted(c.accepts, k) ::
                && db.existing == old(db.existing) + {Ref.Seller(c.ids(k))}
                && pool == old(pool).(sellers := old(pool).sellers + [c.ids(k)])
      ensures SameStockRefs(old(db.existing), db.existing)
    {
      hide Writer.Valid, TablesOk, StockOk, Ledger.Explains, Ledger.Legal, FirstAccepted, Exhausted, SameStockRefs;
      OtherRef(db.existing, Ref.Order(0));
      steps := steps + [SELLER];
      var attempt := InsertWithUniqueRetry(c.accepts, DEFAULT_MAX_ATTEMPTS);
      if attempt.None? {
        return true;
      }
      var id := c.ids(attempt.value);
      OtherRef(db.existing, Ref.Seller(id));
      Insert(Ref.Seller(id));
      pool := pool.(sellers := pool.sellers + [id]);
      return false;
    }

    method CreateProduct(c: Attempts) returns (raised: bool)
      requires Valid() && Balanced()
      modifies this`steps, this`pool, db`existing
      ensures steps == old(steps) + [PRODUCT]
      ensures Valid() && Balanced() && db.existing >= old(db.existing)
      ensures raised <==> pool.sellers == [] || pool.categories == [] || Exhausted(c.accepts, DEFAULT_MAX_ATTEMPTS)
      ensures raised ==> pool == old(pool) && db.existing == old(db.existing)
      ensures !raised ==> exists k | FirstAccepted(c.accepts, k) ::
                && db.existing == old(db.existing) + {Ref.Product(c.ids(k))}
                && pool == old(pool).(products := old(pool).products + [c.ids(k)])
      ensures SameStockRefs(old(db.existing), db.existing)
    {
      hide Writer.Valid, TablesOk, StockOk, Ledger.Explains, Ledger.Legal, FirstAccepted, Exhausted, SameStockRefs;
      OtherRef(db.existing, Ref.Order(0));
      steps := steps + [PRODUCT];
      if pool.sellers == [] || pool.categories == [] {
        return true;
      }
      var attempt := InsertWithUniqueRetry(c.accepts, DEFAULT_MAX_ATTEMPTS);
      if attempt.None? {
        return true;
      }
      var id := c.ids(attempt.value);
      OtherRef(db.existing, Ref.Product(id));
      Insert(Ref.Product(id));
      pool := pool.(products := pool.products + [id]);
      return false;
    }

    /** A warehouse whose code is taken is silently dropped, whichever id it was given. */
    method CreateWarehouse(id: nat, codeTaken: bool) returns (raised: bool)
      requires Valid() && Balanced()
      modifies this`steps, db`existing
      ensures steps == old(steps) + [WAREHOUSE]
      ensures Valid() && Balanced()
      ensures raised <==> !codeTaken && Ref.Warehouse(id) in old(db.existing)
      ensures db.existing == old(db.existing) + if raised || codeTaken then {} else {Ref.Warehouse(id)}
    {
      steps := steps + [WAREHOUSE];
      if codeTaken {
        return false;
      }
      if Ref.Warehouse(id) in db.existing {
        return true;
      }
      Insert(Ref.Warehouse(id));
      return false;
    }

    /** A new row joins the ledger. */
    method InsertStock(id: nat, stock: Stock)
      requires Valid() && Balanced() && stock.available >= 0
      requires {Ref.Warehouse(stock.warehouse), Ref.Product(stock.product)} <= db.existing
      requires Ref.Inventory(id) !in db.existing && !Stocked(db.inventories, stock.warehouse, stock.product)
      modifies this`ledger, db`existing, db`inventories
      ensures Valid() && Balanced() && db.existing == old(db.existing) + {Ref.Inventory(id)}
      ensures StockAdded(old(db.inventories), db.inventories, old(ledger), ledger, id, stock) && ledger.Extends(old(ledger))
    {
      hide Writer.Valid, Pool.Exists, Ledger.Explains, Ledger.Legal, Ledger.Extends, Stocked;
      NotYetStocked(db.inventories, db.existing, id);
      NewRowExplained(ledger, db.inventories, Movements(), db.existing, id, stock);
      Insert(Ref.Inventory(id));
      db.inventories := db.inventories[id := stock];
      ledger := ledger.Opened(id, stock);
    }

    /** A stock row for a random warehouse and product. A pair that is stocked already is silently left
        as it is; a new row joins the ledger with its own opening stock. */
    method CreateInventory(id: nat, available: nat) returns (raised: bool, ghost picked: (nat, nat))
      requires Valid() && Balanced()
      modifies this`steps, this`ledger, db`existing, db`inventories
      ensures steps == old(steps) + [INVENTORY]
      ensures Valid() && Balanced() && db.existing >= old(db.existing)
      ensures raised <==>
                || NoWarehouse(old(db.existing)) || pool.products == []
                || (Ref.Inventory(id) in old(db.existing) && !Stocked(old(db.inventories), picked.0, picked.1))
      ensures raised ==> db.inventories == old(db.inventories) && ledger == old(ledger) && db.existing == old(db.existing)
      ensures !raised ==>
                && Ref.Warehouse(picked.0) in old(db.existing) && picked.1 in pool.products
                && StockAdded(old(db.inventories), db.inventories, old(ledger), ledger, id, Stock(picked.0, picked.1, available))
                && db.existing == old(db.existing) + if Stocked(old(db.inventories), picked.0, picked.1) then {} else {Ref.Inventory(id)}
      ensures !raised ==>
                (db.inventories == old(db.inventories) <==>
                   exists i | i in old(db.inventories) :: old(db.inventories)[i].warehouse == picked.0 && old(db.inventories)[i].product == picked.1)
      ensures OneOpening(old(ledger), ledger, id, available) && ledger.Extends(old(ledger))
    {
      hide Writer.Valid, TablesOk, Pool.Exists, StockOk, Ledger.Explains, Ledger.Legal, Stocked;
      StockedMeans(db.inventories);
      SomeOf(pool.products);
      steps := steps + [INVENTORY];
      picked := (0, 0);
      if r :| r in db.existing && r.Warehouse? {
        var w := r.id;
        if p :| p in pool.products {
          picked := (w, p);
          if Stocked(db.inventories, w, p) {
            SameStock(db.inventories, ledger, id, Stock(w, p, available));
            return false, picked;
          }
          if Ref.Inventory(id) in db.existing {
            return true, picked;
          }
          ProductExists(pool, p, db.existing);
          InsertStock(id, Stock(w, p, available));
          return false, picked;
        } else {
          return true, picked;
        }
      } else {
        return true, picked;
      }
    }

    /** The conditional update: it takes the quantity out only when that much is available. */
    method DecreaseAvailableQuantity(inventory: nat, quantity: int) returns (updated: bool)
      requires Valid()
      modifies db`inventories
      ensures Valid()
      ensures updated == CanTake(old(db.inventories), inventory, quantity)
      ensures updated ==> inventory in old(db.inventories) && db.inventories == Adjusted(old(db.inventories), inventory, -quantity)
      ensures !updated ==> db.inventories == old(db.inventories)
    {
      hide Writer.Valid;
      updated := CanTake(db.inventories, inventory, quantity);
      if updated {
        db.inventories := Adjusted(db.inventories, inventory, -quantity);
      }
    }

    /** Pick a row with stock and take what is wanted of it, never more than it has; a refused update picks again. */
    method ReserveInventory(wanted: nat) returns (reserved: Option<(nat, nat, int)>)
      requires Valid() && 1 <= wanted <= 5
      modifies db`inventories
      ensures Valid()
      ensures NoStock(old(db.inventories)) ==> reserved.None?
      ensures reserved.None? ==> db.inventories == old(db.inventories) && (NoStock(db.inventories) || Refused(db.inventories))
      ensures reserved.Some? ==>
                var (i, product, quantity) := reserved.value;
                && i in old(db.inventories) && product == old(db.inventories)[i].product
                && old(db.inventories)[i].available > 0 && quantity == Min(wanted, old(db.inventories)[i].available)
                && db.inventories == Adjusted(old(db.inventories), i, -quantity)
    {
      hide Writer.Valid, CanTake;
      var attempt := 1;
      while attempt <= MAX_INVENTORY_RESERVE_ATTEMPTS
        invariant db.inventories == old(db.inventories) && Valid()
        invariant 1 <= attempt && (attempt > 1 ==> Refused(db.inventories))
      {
        if i :| i in db.inventories && db.inventories[i].available > 0 {
          var product := db.inventories[i].product;
          var quantity := Min(wanted, db.inventories[i].available);
          var updated := DecreaseAvailableQuantity(i, quantity);
          if updated {
            return Some((i, product, quantity));
          }
          attempt := attempt + 1;
        } else {
          return None;
        }
      }
      return None;
    }

    /** A row of an order whose movement is not buffered yet: a commit it causes is torn. */
    method BufferMidOrder(row: Row, ghost inventory: nat, ghost quantity: int)
      requires Valid() && Short(inventory, quantity) && row.Parents() <= db.existing && !row.Movement?
      modifies writer, db`statements, db`commits
      ensures Valid() && Short(inventory, quantity) && Movements() == old(Movements())
      ensures forall t :: writer.Added(t) == With(old(writer.Added(t)), t, row)
      ensures writer.pending == PendingAfter(old(writer.pending), writer.flushThreshold, 1)
      ensures old(db.commits) <= db.commits && AllTorn(db.commits, |old(db.commits)|, ledger)
      ensures |db.commits| > |old(db.commits)| <==> old(writer.pending) + 1 >= writer.flushThreshold
    {
      hide Valid, Torn, Ledger.Explains, PendingAfter;
      Buffer(row);
      if old(writer.pending) + 1 >= writer.flushThreshold {
        ShortIsTorn(Tables(db.inventories, db.statements), ledger, inventory, quantity);
      }
    }

    /** The order's item and its first history row. Until the movement is buffered a commit is torn, and one
        comes exactly when these two rows reach the threshold. */
    method InsertOrderDetails(order: nat, product: nat, quantity: int, ghost inventory: nat)
      requires Valid() && Short(inventory, quantity) && {Ref.Order(order), Ref.Product(product)} <= db.existing
      modifies writer, db`statements, db`commits
      ensures Valid() && Short(inventory, quantity) && Movements() == old(Movements())
      ensures writer.Added(ORDER_ITEMS) == old(writer.Added(ORDER_ITEMS)) + [OrderItem(order, product, quantity)]
      ensures writer.Added(ORDER_STATUS_HISTORY) == old(writer.Added(ORDER_STATUS_HISTORY)) + [OrderHistory(order)]
      ensures writer.pending == PendingAfter(old(writer.pending), writer.flushThreshold, 2)
      ensures old(db.commits) <= db.commits && AllTorn(db.commits, |old(db.commits)|, ledger)
      ensures |db.commits| > |old(db.commits)| <==> OrderTears(old(writer.pending), writer.flushThreshold)
    {
      hide Valid, Short, Movements, AllTorn;
      BufferMidOrder(OrderItem(order, product, quantity), inventory, quantity);
      ghost var itemised := db.commits;
      BufferMidOrder(OrderHistory(order), inventory, quantity);
      MoreTorn(itemised, |old(db.commits)|, db.commits, ledger);
    }

    /** The movement that records what was taken: now the ledger balances again, also at a commit. */
    method BufferMovement(order: nat, inventory: nat, quantity: int)
      requires Valid() && Short(inventory, quantity) && {Ref.Inventory(inventory), Ref.Order(order)} <= db.existing
      modifies writer, db`statements, db`commits
      ensures Valid() && Balanced()
      ensures forall t :: writer.Added(t) == With(old(writer.Added(t)), t, Movement(inventory, order, quantity))
      ensures writer.pending == PendingAfter(old(writer.pending), writer.flushThreshold, 1)
      ensures old(db.commits) <= db.commits && AllAccounted(db.commits, |old(db.commits)|, ledger)
    {
      hide Valid, Accounted, Ledger.Explains, PendingAfter;
      ReservedThenRecorded(ledger, db.inventories, Movements(), inventory, quantity, order);
      Buffer(Movement(inventory, order, quantity));
      if old(writer.pending) + 1 >= writer.flushThreshold {
        BalancedIsAccounted(Tables(db.inventories, db.statements), ledger);
      }
    }

    /** Buffer everything that belongs to the order: what that commits is accounted for, unless the first two
        rows reach the threshold. */
    method BufferOrder(o: OrderReference, inventory: nat, quantity: int)
      requires Valid() && Short(inventory, quantity)
      requires {Ref.Order(o.order), Ref.Product(o.product), Ref.Inventory(inventory)} <= db.existing
      modifies writer, db`statements, db`commits
      ensures Valid() && Balanced()
      ensures OrderBooks() == old(OrderBooks()).WithOrder(o, inventory, quantity)
      ensures writer.pending == PendingAfter(old(writer.pending), writer.flushThreshold, 3)
      ensures old(db.commits) <= db.commits
      ensures if OrderTears(old(writer.pending), writer.flushThreshold) then SomeTorn(db.commits, |old(db.commits)|, ledger)
              else AllAccounted(db.commits, |old(db.commits)|, ledger)
    {
      hide Valid, Short, Balanced, AllTorn, AllAccounted, SomeTorn, OrderTears, PendingAfter;
      InsertOrderDetails(o.order, o.product, quantity, inventory);
      ghost var torn := db.commits;
      BufferMovement(o.order, inventory, quantity);
      PendingSteps(old(writer.pending), writer.flushThreshold, 2, 1);
      OrderCommits(|old(db.commits)|, torn, db.commits, ledger);
    }

    /** Insert the order and buffer everything that belongs to it. */
    method RecordOrder(o: OrderReference, inventory: nat, quantity: int)
      requires Valid() && Short(inventory, quantity)
      requires {Ref.Customer(o.customer), Ref.Product(o.product), Ref.Inventory(inventory)} <= db.existing
      modifies this`pool, writer, db`existing, db`statements, db`commits
      ensures Valid() && Balanced() && db.existing == old(db.existing) + {Ref.Order(o.order)}
      ensures OrderBooks() == old(OrderBooks()).WithOrder(o, inventory, quantity)
      ensures pool == old(pool).(orders := old(pool).orders + [o])
      ensures writer.pending == PendingAfter(old(writer.pending), writer.flushThreshold, 3)
      ensures old(db.commits) <= db.commits
      ensures if OrderTears(old(writer.pending), writer.flushThreshold) then SomeTorn(db.commits, |old(db.commits)|, ledger)
              else AllAccounted(db.commits, |old(db.commits)|, ledger)
    {
      hide Writer.Valid, StockOk, Ledger.Explains, Ledger.Legal, TablesOk, Pool.Exists, AllAccounted, SomeTorn, OrderTears, PendingAfter;
      Insert(Ref.Order(o.order));
      BufferOrder(o, inventory, quantity);
      PoolAppend(pool, o, db.existing);
      pool := pool.(orders := pool.orders + [o]);
    }

    /** The order of a reservation that was just made. */
    method SellTo(o: OrderReference, inventory: nat, quantity: int, wanted: nat, ghost before: map<nat, Stock>)
      requires Valid() && 1 <= wanted <= 5 && o.customer in pool.customers
      requires StockOk(before, db.existing) && ledger.Explains(before, Movements())
      requires inventory in before && before[inventory].available > 0 && o.product == before[inventory].product
      requires quantity == Min(wanted, before[inventory].available) && db.inventories == Adjusted(before, inventory, -quantity)
      modifies this`pool, writer, db`existing, db`statements, db`commits
      ensures Valid() && Balanced() && db.existing == old(db.existing) + {Ref.Order(o.order)}
      ensures pool == old(pool).(orders := old(pool).orders + [o])
      ensures OneSold(before, db.inventories, wanted, old(OrderBooks()), OrderBooks(), old(pool), pool)
      ensures OneSale(old(OrderBooks()), OrderBooks(), old(pool.orders), pool.orders, ledger.openings)
      ensures writer.pending == PendingAfter(old(writer.pending), writer.flushThreshold, 3)
      ensures old(db.commits) <= db.commits
      ensures AllAccounted(db.commits, |old(db.commits)|, ledger) <==> !OrderTears(old(writer.pending), writer.flushThreshold)
      ensures SomeTorn(db.commits, |old(db.commits)|, ledger) <==> OrderTears(old(writer.pending), writer.flushThreshold)
    {
      hide Writer.Valid, TablesOk, StockOk, Pool.Exists, Adjusted, OneSold, OneSale, SomeTorn, AllAccounted, OrderTears, PendingAfter,
           Ledger.Explains, Ledger.Legal;
      OrderParentsExist(db.existing, before, inventory, pool, o.customer);
      InStock(before, inventory, quantity);
      RecordOrder(o, inventory, quantity);
      ThisSold(before, inventory, wanted, o, old(OrderBooks()), old(pool));
      SoldIsSale(before, db.inventories, wanted, old(OrderBooks()), OrderBooks(), old(pool), pool, ledger);
      TornOrAccounted(db.commits, |old(db.commits)|, ledger);
    }

    /** Reserve stock, insert the order, then buffer its item, its first history row and the movement;
        a flush in between leaves the rest for the next one. What it commits is accounted for exactly when
        the item and the history row do not reach the threshold. */
    method CreateOrder(c: Attempts, wanted: nat) returns (raised: bool)
      requires Valid() && Balanced() && 1 <= wanted <= 5
      modifies this`steps, this`pool, writer, db
      ensures steps == old(steps) + [ORDER]
      ensures Valid() && db.existing >= old(db.existing)
      ensures raised <==>
                || pool.customers == []
                || NoStock(old(db.inventories))
                || Exhausted(c.accepts, DEFAULT_MAX_ATTEMPTS)
      ensures raised ==> pool == old(pool) && OrderBooks() == old(OrderBooks()) && db.commits == old(db.commits)
      ensures raised && (!Exhausted(c.accepts, DEFAULT_MAX_ATTEMPTS) || NoStock(old(db.inventories))) ==>
                Balanced() && db.inventories == old(db.inventories)
      ensures raised ==> db.existing == old(db.existing)
      ensures !raised ==> exists k | FirstAccepted(c.accepts, k) :: OrderInserted(old(db.existing), db.existing, pool, c.ids(k))
      ensures !raised ==>
                && Balanced() && OneSold(old(db.inventories), db.inventories, wanted, old(OrderBooks()), OrderBooks(), old(pool), pool)
                && OneSale(old(OrderBooks()), OrderBooks(), old(pool.orders), pool.orders, ledger.openings)
      ensures !raised ==> writer.pending == PendingAfter(old(writer.pending), writer.flushThreshold, 3)
      ensures !raised ==> db.inventories != map[] && pool.(orders := old(pool).orders) == old(pool)
      ensures old(db.commits) <= db.commits
      ensures !raised ==>
                && (AllAccounted(db.commits, |old(db.commits)|, ledger) <==> !OrderTears(old(writer.pending), writer.flushThreshold))
                && (SomeTorn(db.commits, |old(db.commits)|, ledger) <==> OrderTears(old(writer.pending), writer.flushThreshold))
    {
      hide Writer.Valid, OrderBooks, Movements, Ledger.Explains, TablesOk, CanTake, Refused, NoStock, StockOk, Pool.Exists, Adjusted, OneSold, OneSale,
           FirstAccepted, Exhausted, SomeTorn, AllAccounted, OrderTears, PendingAfter, Ledger.Legal;
      steps := steps + [ORDER];
      if pool.customers == [] {
        return true;
      }
      assert pool.customers[0] in pool.customers;
      var customer :| customer in pool.customers;
      NeverRefused(db.inventories);
      var reserved := ReserveInventory(wanted);
      if reserved.None? {
        return true;
      }
      var (inventory, product, quantity) := reserved.value;
      var attempt := InsertWithUniqueRetry(c.accepts, DEFAULT_MAX_ATTEMPTS);
      if attempt.None? {
        return true;
      }
      var order := c.ids(attempt.value);
      SellTo(OrderReference(order, customer, product), inventory, quantity, wanted, old(db.inventories));
      return false;
    }

    method CreatePayment() returns (raised: bool)
      requires Valid() && Balanced()
      modifies this`steps, writer, db`statements, db`commits
      ensures steps == old(steps) + [PAYMENT]
      ensures Valid() && Balanced() && OrderBooks() == old(OrderBooks())
      ensures raised == (pool.orders == [] || pool.paymentMethods == [])
      ensures !raised ==> exists o, m | o in pool.orders && m in pool.paymentMethods ::
                writer.Added(PAYMENTS) == old(writer.Added(PAYMENTS)) + [Payment(o.order, m)]
      ensures writer.pending == PendingAfter(old(writer.pending), writer.flushThreshold, if raised then 0 else 1)
      ensures old(db.commits) <= db.commits && AllAccounted(db.commits, |old(db.commits)|, ledger)
    {
      hide Writer.Valid, StockOk, Ledger.Explains, Ledger.Legal, TablesOk, AllAccounted;
      NoCommits(db.commits, ledger);
      steps := steps + [PAYMENT];
      if pool.orders == [] || pool.paymentMethods == [] {
        return true;
      }
      assert pool.orders[0] in pool.orders && pool.paymentMethods[0] in pool.paymentMethods;
      var order :| order in pool.orders;
      var paymentMethod :| paymentMethod in pool.paymentMethods;
      assert OrderExists(order, db.existing);
      BufferAside(Payment(order.order, paymentMethod));
      return false;
    }

    method CreateShipment() returns (raised: bool)
      requires Valid() && Balanced()
      modifies this`steps, writer, db`statements, db`commits
      ensures steps == old(steps) + [SHIPMENT]
      ensures Valid() && Balanced() && OrderBooks() == old(OrderBooks())
      ensures raised == (pool.orders == [] || pool.carriers == [])
      ensures !raised ==> exists o, m | o in pool.orders && m in pool.carriers ::
                writer.Added(SHIPMENTS) == old(writer.Added(SHIPMENTS)) + [Shipment(o.order, m)]
      ensures writer.pending == PendingAfter(old(writer.pending), writer.flushThreshold, if raised then 0 else 1)
      ensures old(db.commits) <= db.commits && AllAccounted(db.commits, |old(db.commits)|, ledger)
    {
      hide Writer.Valid, StockOk, Ledger.Explains, Ledger.Legal, TablesOk, AllAccounted;
      NoCommits(db.commits, ledger);
      steps := steps + [SHIPMENT];
      if pool.orders == [] || pool.carriers == [] {
        return true;
      }
      assert pool.orders[0] in pool.orders && pool.carriers[0] in pool.carriers;
      var order :| order in pool.orders;
      var carrier :| carrier in pool.carriers;
      assert OrderExists(order, db.existing);
      BufferAside(Shipment(order.order, carrier));
      return false;
    }

    method CreateReview() returns (raised: bool)
      requires Valid() && Balanced()
      modifies this`steps, writer, db`statements, db`commits
      ensures steps == old(steps) + [REVIEW]
      ensures Valid() && Balanced() && OrderBooks() == old(OrderBooks())
      ensures raised == (pool.orders == [])
      ensures !raised ==> exists o | o in pool.orders ::
                writer.Added(REVIEWS) == old(writer.Added(REVIEWS)) + [Review(o.order, o.customer, o.product)]
      ensures writer.pending == PendingAfter(old(writer.pending), writer.flushThreshold, if raised then 0 else 1)
      ensures old(db.commits) <= db.commits && AllAccounted(db.commits, |old(db.commits)|, ledger)
    {
      hide Writer.Valid, StockOk, Ledger.Explains, Ledger.Legal, TablesOk, AllAccounted;
      NoCommits(db.commits, ledger);
      steps := steps + [REVIEW];
      if pool.orders == [] {
        return true;
      }
      assert pool.orders[0] in pool.orders;
      var order :| order in pool.orders;
      assert OrderExists(order, db.existing);
      BufferAside(Review(order.order, order.customer, order.product));
      return false;
    }

    /** Now and then one row is refilled, one that runs low if there is any. */
    method MaybeRestock(skip: bool, quantity: int)
      requires Valid() && Balanced() && 50 <= quantity <= 200
      modifies this`steps, this`ledger, db`inventories
      ensures steps == old(steps) + [RESTOCK]
      ensures Valid() && Balanced() && ledger.Extends(old(ledger))
      ensures ledger.openings == old(ledger).openings
      ensures |ledger.refills| == |old(ledger).refills| + if skip || old(db.inventories) == map[] then 0 else 1
      ensures skip || old(db.inventories) == map[] ==> db.inventories == old(db.inventories) && ledger == old(ledger)
      ensures !skip && old(db.inventories) != map[] ==>
                Restocked(old(db.inventories), db.inventories, quantity, old(ledger), ledger)
    {
      hide Writer.Valid, TablesOk, Pool.Exists, Ledger.Explains, Ledger.Legal, StockOk, Restocked, Adjusted, Neediest;
      steps := steps + [RESTOCK];
      if skip || db.inventories == map[] {
        return;
      }
      var candidate := RestockCandidate();
      RestockKeeps(db.inventories, db.existing, Movements(), ledger, candidate, quantity);
      db.inventories := Adjusted(db.inventories, candidate, quantity);
      ledger := ledger.Plus(Refill(candidate, quantity));
    }

    method RestockCandidate() returns (candidate: nat)
      requires db.inventories != map[]
      ensures Neediest(db.inventories, candidate)
    {
      if i :| i in db.inventories && db.inventories[i].available < LOW_STOCK_THRESHOLD {
        return i;
      }
      candidate :| candidate in db.inventories;
    }

    /** One cycle, in its fixed order, up to the first step that raises, which it does for one of the reasons
        given and no other. A cycle that does not raise sells one order, opens at most one row and refills one
        row unless it skips that; its tables balance at every commit exactly when the rows pending at its start
        do not make its order tear one. */
    method RunCycle(c: Chances, features: Features) returns (raised: bool, ghost picked: (nat, nat))
      requires Valid() && Balanced() && c.Rolled()
      modifies this, writer, db
      ensures Valid() && (!raised ==> Balanced())
      ensures raised <==> CycleFails(old(db.existing), old(db.inventories), old(pool), c, features, picked)
      ensures raised && RunsOut(old(db.existing), old(db.inventories), old(pool), c, picked) ==>
                NoStock(db.inventories) && Balanced() && OrderBooks() == old(OrderBooks()) && pool.orders == old(pool.orders)
      ensures StockRefs(old(db.existing), db.existing, c, raised)
      ensures SameSupplies(old(pool), pool)
      ensures Ran(old(steps), steps, CycleSteps(features), raised)
      ensures raised ==> |steps| < |old(steps)| + |CycleSteps(features)|
      ensures OneOpening(old(ledger), Ledger(ledger.openings, old(ledger).refills), c.ids(1), c.opening)
      ensures ledger.Extends(old(ledger)) && ledger.Legal()
      ensures !raised ==> OpensPicked(old(db.inventories), old(ledger), ledger, c, picked)
      ensures if raised || c.skipRestock then ledger.refills == old(ledger).refills
              else exists i :: ledger.refills == old(ledger).refills + [Refill(i, c.refill)]
      ensures !raised ==>
                && |pool.customers| == |old(pool.customers)| + 1 && |pool.sellers| == |old(pool.sellers)| + 1
                && |pool.products| == |old(pool.products)| + 1
                && OneSale(old(OrderBooks()), OrderBooks(), old(pool.orders), pool.orders, ledger.openings)
      ensures !raised ==> writer.pending == PendingAfter(old(writer.pending), writer.flushThreshold, RowsPerCycle(features))
      ensures old(db.commits) <= db.commits
      ensures !CycleTears(old(writer.pending), writer.flushThreshold) ==> AllAccounted(db.commits, |old(db.commits)|, ledger)
      ensures !raised && CycleTears(old(writer.pending), writer.flushThreshold) ==> SomeTorn(db.commits, |old(db.commits)|, ledger)
    {
      hide Valid, Balanced, Movements, OrderBooks, Ran, FollowUps, Restocked, CycleTears, PendingAfter, AllAccounted, SomeTorn, Ledger.Extends, OneSale, OneOpening,
           PeopleFail, StockFails, NothingToSell, StockRefs, NoStock, Exhausted, OpensPicked;
      raised, picked := CreateToOrder(c);
      if raised {
        RanStopped(old(steps), steps, CATALOG_STEPS + [ORDER], FollowUps(features));
        StoppedShort(old(steps), steps, CATALOG_STEPS + [ORDER] + FollowUps(features));
        assert Ledger(ledger.openings, old(ledger).refills) == ledger;
        LegalNow();
        return;
      }
      ghost var ordered, orderedPending, orderedCommits, orderedLedger := steps, writer.pending, db.commits, ledger;
      assert Ledger(ledger.openings, old(ledger).refills) == ledger;
      raised := CreateFollowUps(features);
      CommitsThen(|old(db.commits)|, orderedCommits, db.commits, orderedLedger, ledger);
      RanThen(old(steps), ordered, steps, CATALOG_STEPS + [ORDER], FollowUps(features), raised);
      if raised {
        StoppedShort(old(steps), steps, CATALOG_STEPS + [ORDER] + FollowUps(features));
        LegalNow();
        RefsAfter(old(db.existing), db.existing, db.existing, c, true);
        return;
      }
      PendingSteps(old(writer.pending), writer.flushThreshold, 4, |FollowUps(features)|);
      ghost var followed, followedLedger, followedStock := steps, ledger, db.inventories;
      MaybeRestock(c.skipRestock, c.refill);
      if !c.skipRestock {
        RestockedLedger(followedStock, db.inventories, c.refill, followedLedger, ledger);
      }
      OpensStill(old(db.inventories), old(ledger), followedLedger, ledger, c, picked);
      ExtendsTrans(old(ledger), followedLedger, ledger);
      NoCommits(db.commits, ledger);
      CommitsThen(|old(db.commits)|, db.commits, db.commits, followedLedger, ledger);
      LegalNow();
      OneRan(followed, RESTOCK, false);
      RanThen(old(steps), followed, steps, CATALOG_STEPS + [ORDER] + FollowUps(features), [RESTOCK], false);
    }

    /** The cycle up to and including its order. */
    method CreateToOrder(c: Chances) returns (raised: bool, ghost picked: (nat, nat))
      requires Valid() && Balanced() && c.Rolled()
      modifies this, writer, db
      ensures Valid() && (!raised ==> Balanced())
      ensures raised <==>
                || PeopleFail(old(pool), c.attempts)
                || StockFails(old(db.existing), old(db.inventories), c.ids, c.codeTaken, picked)
                || NothingToSell(old(db.inventories), c.opening, picked)
                || Exhausted(c.attempts(3).accepts, 10)
      ensures raised && RunsOut(old(db.existing), old(db.inventories), old(pool), c, picked) ==>
                NoStock(db.inventories) && Balanced() && OrderBooks() == old(OrderBooks()) && pool.orders == old(pool.orders)
      ensures StockRefs(old(db.existing), db.existing, c, raised)
      ensures SameSupplies(old(pool), pool)
      ensures !raised ==> OpensPicked(old(db.inventories), old(ledger), ledger, c, picked)
      ensures Ran(old(steps), steps, CATALOG_STEPS + [ORDER], raised)
      ensures OneOpening(old(ledger), ledger, c.ids(1), c.opening) && ledger.Extends(old(ledger)) && ledger.refills == old(ledger).refills
      ensures !raised ==>
                && |pool.customers| == |old(pool.customers)| + 1 && |pool.sellers| == |old(pool.sellers)| + 1
                && |pool.products| == |old(pool.products)| + 1 && db.inventories != map[] && pool.orders != []
                && OneSale(old(OrderBooks()), OrderBooks(), old(pool.orders), pool.orders, ledger.openings)
      ensures !raised ==> writer.pending == PendingAfter(old(writer.pending), writer.flushThreshold, 4)
      ensures old(db.commits) <= db.commits
      ensures !CycleTears(old(writer.pending), writer.flushThreshold) ==> AllAccounted(db.commits, |old(db.commits)|, ledger)
      ensures !raised && CycleTears(old(writer.pending), writer.flushThreshold) ==> SomeTorn(db.commits, |old(db.commits)|, ledger)
    {
      hide Valid, Balanced, OrderBooks, Movements, Ran, NoStock, Adjusted, PendingAfter, AllAccounted, SomeTorn, OrderTears, Ledger.Extends, Ledger.Explains, OneSale, OneSold,
           OneOpening, Exhausted, FirstAccepted, PeopleFail, StockFails, NothingToSell, StockRefs, OpensPicked;
      raised, picked := CreateCatalog(c);
      if raised {
        RanStopped(old(steps), steps, CATALOG_STEPS, [ORDER]);
        return;
      }
      ghost var catalogued, commits, existing := steps, db.commits, db.existing;
      raised := CreateOrder(c.attempts(3), c.wanted);
      OneRan(catalogued, ORDER, raised);
      RanThen(old(steps), catalogued, steps, CATALOG_STEPS, [ORDER], raised);
      SameLedger(ledger);
      NoCommits(commits, ledger);
      if raised {
        RefsAfter(old(db.existing), existing, db.existing, c, true);
        return;
      }
      RefsAfter(old(db.existing), existing, db.existing, c, false);
      SaleHasOrder(old(OrderBooks()), OrderBooks(), old(pool.orders), pool.orders, ledger.openings);
      PendingSteps(old(writer.pending), writer.flushThreshold, 1, 3);
      CommitsThen(|old(db.commits)|, commits, db.commits, ledger, ledger);
    }

    /** The first five steps of a cycle: customer, seller, product, warehouse, inventory. */
    method CreateCatalog(c: Chances) returns (raised: bool, ghost picked: (nat, nat))
      requires Valid() && Balanced()
      modifies this, writer, db
      ensures Valid() && Balanced()
      ensures raised <==>
                || PeopleFail(old(pool), c.attempts)
                || StockFails(old(db.existing), old(db.inventories), c.ids, c.codeTaken, picked)
      ensures !raised ==> (NoStock(db.inventories) <==> NothingToSell(old(db.inventories), c.opening, picked))
      ensures !raised ==> OpensPicked(old(db.inventories), old(ledger), ledger, c, picked)
      ensures StockRefs(old(db.existing), db.existing, c, raised)
      ensures SameSupplies(old(pool), pool)
      ensures Ran(old(steps), steps, CATALOG_STEPS, raised)
      ensures OneOpening(old(ledger), ledger, c.ids(1), c.opening) && ledger.Extends(old(ledger)) && ledger.refills == old(ledger).refills
      ensures OrderBooks() == old(OrderBooks()) && pool.orders == old(pool.orders)
      ensures !raised ==>
                && |pool.customers| == |old(pool.customers)| + 1 && |pool.sellers| == |old(pool.sellers)| + 1
                && |pool.products| == |old(pool.products)| + 1
      ensures !raised ==> writer.pending == PendingAfter(old(writer.pending), writer.flushThreshold, 1)
      ensures old(db.commits) <= db.commits && AllAccounted(db.commits, |old(db.commits)|, ledger)
    {
      hide Valid, Balanced, OrderBooks, Movements, Ran, PendingAfter, AllAccounted, Ledger.Extends, OneOpening, PeopleFail, StockFails, NothingToSell, NoStock, StockRefs, OpensPicked;
      assert CATALOG_STEPS == [CUSTOMER, SELLER, PRODUCT] + [WAREHOUSE, INVENTORY];
      SameLedger(ledger);
      SameOpenings(ledger, c.ids(1), c.opening);
      picked := (0, 0);
      raised := CreatePeople(c.attempts);
      if raised {
        RanStopped(old(steps), steps, [CUSTOMER, SELLER, PRODUCT], [WAREHOUSE, INVENTORY]);
        RefsBefore(old(db.existing), db.existing, db.existing, db.inventories, c, true, picked);
        return;
      }
      ghost var peopled, before, existing := steps, ledger, db.existing;
      raised, picked := CreateStock(c);
      RefsBefore(old(db.existing), existing, db.existing, old(db.inventories), c, raised, picked);
      RanThen(old(steps), peopled, steps, [CUSTOMER, SELLER, PRODUCT], [WAREHOUSE, INVENTORY], raised);
      NoCommits(db.commits, ledger);
      MoreAccounted(db.commits, |old(db.commits)|, before, db.commits, ledger);
    }

    /** Customer, seller and product. */
    method CreatePeople(attempts: nat -> Attempts) returns (raised: bool)
      requires Valid() && Balanced()
      modifies this`steps, this`pool, writer, db`existing, db`statements, db`commits
      ensures Valid() && Balanced()
      ensures raised <==> PeopleFail(old(pool), attempts)
      ensures old(db.existing) <= db.existing && SameStockRefs(old(db.existing), db.existing) && SameSupplies(old(pool), pool)
      ensures Ran(old(steps), steps, [CUSTOMER, SELLER, PRODUCT], raised)
      ensures OrderBooks() == old(OrderBooks()) && pool.orders == old(pool.orders)
      ensures !raised ==>
                && |pool.customers| == |old(pool.customers)| + 1 && |pool.sellers| == |old(pool.sellers)| + 1
                && |pool.products| == |old(pool.products)| + 1
      ensures !raised ==> writer.pending == PendingAfter(old(writer.pending), writer.flushThreshold, 1)
      ensures old(db.commits) <= db.commits && AllAccounted(db.commits, |old(db.commits)|, ledger)
    {
      hide Valid, Balanced, OrderBooks, Movements, FirstAccepted, Exhausted, AllAccounted, PendingAfter, SameStockRefs;
      raised := CreateCustomer(attempts(0));
      if raised {
        return;
      }
      ghost var withCustomer := db.existing;
      raised := CreateSeller(attempts(1));
      ghost var withSeller := db.existing;
      SameRefsThrough(old(db.existing), withCustomer, withSeller, withSeller);
      if raised {
        return;
      }
      raised := CreateProduct(attempts(2));
      SameRefsThrough(old(db.existing), withCustomer, withSeller, db.existing);
    }

    /** Warehouse and inventory. */
    method CreateStock(c: Chances) returns (raised: bool, ghost picked: (nat, nat))
      requires Valid() && Balanced() && pool.products != []
      modifies this`steps, this`ledger, db`existing, db`inventories
      ensures Valid() && Balanced()
      ensures raised <==> StockFails(old(db.existing), old(db.inventories), c.ids, c.codeTaken, picked)
      ensures !raised ==> (NoStock(db.inventories) <==> NothingToSell(old(db.inventories), c.opening, picked))
      ensures !raised ==> OpensPicked(old(db.inventories), old(ledger), ledger, c, picked)
      ensures StockRefs(old(db.existing), db.existing, c, raised)
      ensures Ran(old(steps), steps, [WAREHOUSE, INVENTORY], raised)
      ensures OneOpening(old(ledger), ledger, c.ids(1), c.opening) && ledger.Extends(old(ledger)) && ledger.refills == old(ledger).refills
    {
      hide Valid, Balanced, Stocked, StockAdded, Ledger.Extends, NoStock, NothingToSell, OpensPicked;
      SameLedger(ledger);
      picked := (0, 0);
      raised := CreateWarehouse(c.ids(0), c.codeTaken);
      if raised {
        return;
      }
      ghost var before, inventories := ledger, db.inventories;
      raised, picked := CreateInventory(c.ids(1), c.opening);
      if !raised {
        StockOpened(inventories, db.inventories, before, ledger, c, picked);
      }
    }

    method CreatePaymentIf(enabled: bool) returns (raised: bool)
      requires Valid() && Balanced()
      modifies this`steps, writer, db`statements, db`commits
      ensures Valid() && Balanced() && OrderBooks() == old(OrderBooks())
      ensures steps == old(steps) + Switched(enabled, PAYMENT) && (raised ==> Switched(enabled, PAYMENT) != [])
      ensures raised <==> enabled && (pool.orders == [] || pool.paymentMethods == [])
      ensures !raised ==> writer.pending == PendingAfter(old(writer.pending), writer.flushThreshold, if enabled then 1 else 0)
      ensures old(db.commits) <= db.commits && AllAccounted(db.commits, |old(db.commits)|, ledger)
    {
      hide Valid, Balanced, OrderBooks, Movements, AllAccounted;
      NoCommits(db.commits, ledger);
      raised := false;
      if enabled {
        raised := CreatePayment();
      }
    }

    method CreateShipmentIf(enabled: bool) returns (raised: bool)
      requires Valid() && Balanced()
      modifies this`steps, writer, db`statements, db`commits
      ensures Valid() && Balanced() && OrderBooks() == old(OrderBooks())
      ensures steps == old(steps) + Switched(enabled, SHIPMENT) && (raised ==> Switched(enabled, SHIPMENT) != [])
      ensures raised <==> enabled && (pool.orders == [] || pool.carriers == [])
      ensures !raised ==> writer.pending == PendingAfter(old(writer.pending), writer.flushThreshold, if enabled then 1 else 0)
      ensures old(db.commits) <= db.commits && AllAccounted(db.commits, |old(db.commits)|, ledger)
    {
      hide Valid, Balanced, OrderBooks, Movements, AllAccounted;
      NoCommits(db.commits, ledger);
      raised := false;
      if enabled {
        raised := CreateShipment();
      }
    }

    method CreateReviewIf(enabled: bool) returns (raised: bool)
      requires Valid() && Balanced()
      modifies this`steps, writer, db`statements, db`commits
      ensures Valid() && Balanced() && OrderBooks() == old(OrderBooks())
      ensures steps == old(steps) + Switched(enabled, REVIEW) && (raised ==> Switched(enabled, REVIEW) != [])
      ensures raised <==> enabled && pool.orders == []
      ensures !raised ==> writer.pending == PendingAfter(old(writer.pending), writer.flushThreshold, if enabled then 1 else 0)
      ensures old(db.commits) <= db.commits && AllAccounted(db.commits, |old(db.commits)|, ledger)
    {
      hide Valid, Balanced, OrderBooks, Movements, AllAccounted;
      NoCommits(db.commits, ledger);
      raised := false;
      if enabled {
        raised := CreateReview();
      }
    }

    /** Payment, shipment and review, each behind its switch. */
    method CreateFollowUps(features: Features) returns (raised: bool)
      requires Valid() && Balanced()
      modifies this`steps, writer, db`statements, db`commits
      ensures Valid() && Balanced() && OrderBooks() == old(OrderBooks())
      ensures Ran(old(steps), steps, FollowUps(features), raised)
      ensures pool.orders != [] ==>
                (raised <==> (features.payments && pool.paymentMethods == []) || (features.shipments && pool.carriers == []))
      ensures !raised ==> writer.pending == PendingAfter(old(writer.pending), writer.flushThreshold, |FollowUps(features)|)
      ensures old(db.commits) <= db.commits && AllAccounted(db.commits, |old(db.commits)|, ledger)
    {
      hide Valid, Balanced, OrderBooks, Movements, AllAccounted, Ledger.Extends, PendingAfter, Ran;
      SameLedger(ledger);
      ghost var p, q, r := Switched(features.payments, PAYMENT), Switched(features.shipments, SHIPMENT), Switched(features.reviews, REVIEW);
      ThreeRan(old(steps), p, q, r);
      PendingSteps(old(writer.pending), writer.flushThreshold, |p|, |q|);
      PendingSteps(old(writer.pending), writer.flushThreshold, |p| + |q|, |r|);
      raised := CreatePaymentIf(features.payments);
      if raised {
        return;
      }
      ghost var paid := db.commits;
      raised := CreateShipmentIf(features.shipments);
      MoreAccounted(paid, |old(db.commits)|, ledger, db.commits, ledger);
      if raised {
        return;
      }
      ghost var shipped := db.commits;
      raised := CreateReviewIf(features.reviews);
      MoreAccounted(shipped, |old(db.commits)|, ledger, db.commits, ledger);
    }

    /** The last flush of a batch moves what is still buffered into the tables; nothing else changes. */
    method FinalFlush()
      requires Valid() && Balanced()
      modifies writer, db`statements, db`commits
      ensures Valid() && Balanced() && writer.pending == 0 && forall t :: writer.Buffered(t) == []
      ensures old(OrderBooks()) ==
              Books(SentTo(db.statements, ORDER_ITEMS), SentTo(db.statements, ORDER_STATUS_HISTORY), SentTo(db.statements, INVENTORY_MOVEMENTS))
      ensures forall t :: SentTo(db.statements, t) == old(writer.Added(t)) && ParentsIn(SentTo(db.statements, t), db.existing)
      ensures ledger.Explains(db.inventories, SentTo(db.statements, INVENTORY_MOVEMENTS))
      ensures old(db.commits) <= db.commits && AllAccounted(db.commits, |old(db.commits)|, ledger)
    {
      hide BuffersOk, Total, StockOk, Ledger.Explains, Ledger.Legal, Pool.Exists, SentTo, ParentsIn, Accounted;
      assert forall t :: ParentsIn(writer.Added(t), db.existing);
      writer.Flush();
      forall t
        ensures writer.Added(t) == SentTo(db.statements, t)
      {
        writer.AddedIsSent(t);
      }
      if old(writer.pending) != 0 {
        BalancedIsAccounted(Tables(db.inventories, db.statements), ledger);
      }
    }
  }

  /** The refills rolled in the first n cycles. */
  function Refills(chances: nat -> Chances, n: nat): seq<int> {
    if n == 0 then [] else Refills(chances, n - 1) + if chances(n - 1).skipRestock then [] else [chances(n - 1).refill]
  }

  ghost predicate RefilledAs(refills: seq<Refill>, rolls: seq<int>) {
    |refills| == |rolls| && forall k | 0 <= k < |rolls| :: refills[k].quantity == rolls[k]
  }

  /** The row opened in some cycle of the batch, with that cycle's opening stock. */
  ghost predicate OpenedIn(chances: nat -> Chances, n: nat, i: nat, available: int) {
    exists k | 0 <= k < n :: i == chances(k).ids(1) && available == chances(k).opening
  }

  /** The ledger of a batch: it starts with the rows earlier batches left, as they were; every further row
      is one that a cycle opened. */
  ghost predicate LedgerOf(ledger: Ledger, start: map<nat, Stock>, chances: nat -> Chances, n: nat) {
    && ledger.Legal() && ledger.Extends(Ledger(start, []))
    && forall i | i in ledger.openings && i !in start :: OpenedIn(chances, n, i, ledger.openings[i].available)
  }

  lemma OneCycleMore(before: Ledger, after: Ledger, start: map<nat, Stock>, chances: nat -> Chances, n: nat)
    requires LedgerOf(before, start, chances, n)
    requires after.Legal() && after.Extends(before)
    requires OneOpening(before, Ledger(after.openings, before.refills), chances(n).ids(1), chances(n).opening)
    ensures LedgerOf(after, start, chances, n + 1)
  {
    forall i | i in after.openings && i !in start
      ensures OpenedIn(chances, n + 1, i, after.openings[i].available)
    {
      if i in before.openings {
        assert OpenedIn(chances, n, i, before.openings[i].available);
        var k :| 0 <= k < n && i == chances(k).ids(1) && before.openings[i].available == chances(k).opening;
        assert 0 <= k < n + 1;
      } else {
        assert i == chances(n).ids(1);
      }
    }
  }

  lemma LedgerIsLegal(ledger: Ledger, start: map<nat, Stock>, chances: nat -> Chances, n: nat)
    requires LedgerOf(ledger, start, chances, n)
    ensures ledger.Legal()
  {
  }

  lemma NoMoreOpened(ledger: Ledger, start: map<nat, Stock>, chances: nat -> Chances, n: nat, m: nat)
    requires LedgerOf(ledger, start, chances, n) && n <= m
    ensures LedgerOf(ledger, start, chances, m)
  {
    forall i | i in ledger.openings && i !in start
      ensures OpenedIn(chances, m, i, ledger.openings[i].available)
    {
      assert OpenedIn(chances, n, i, ledger.openings[i].available);
      var k :| 0 <= k < n && i == chances(k).ids(1) && ledger.openings[i].available == chances(k).opening;
      assert 0 <= k < m;
    }
  }

  lemma StartOfBatch(start: map<nat, Stock>, chances: nat -> Chances, flushThreshold: int)
    ensures LedgerOf(Ledger(start, []), start, chances, 0)
    ensures Sales(Books([], [], []), [], start)
    ensures AllAccounted([], 0, Ledger(start, [])) && 0 % Max(flushThreshold, 1) == 0
    ensures forall features :: !Tears(0, flushThreshold, features)
  {
  }

  lemma StillTears(n: nat, m: nat, flushThreshold: int, features: Features)
    requires n <= m
    ensures Tears(n, flushThreshold, features) ==> Tears(m, flushThreshold, features)
  {
  }

  /** What is pending at the start of a cycle, and whether its order tears a commit. */
  lemma CycleTearsIff(k: nat, flushThreshold: int, features: Features)
    ensures var pending := (k * RowsPerCycle(features)) % Max(flushThreshold, 1);
            && (CycleTears(pending, flushThreshold) <==> TearsAt(k, flushThreshold, features))
            && PendingAfter(pending, flushThreshold, RowsPerCycle(features)) == ((k + 1) * RowsPerCycle(features)) % Max(flushThreshold, 1)
    ensures Tears(k + 1, flushThreshold, features) <==> Tears(k, flushThreshold, features) || TearsAt(k, flushThreshold, features)
  {
    var rows := k * RowsPerCycle(features);
    PendingIsRest(flushThreshold, rows, 1);
    PendingIsRest(flushThreshold, rows, RowsPerCycle(features));
    assert (k + 1) * RowsPerCycle(features) == rows + RowsPerCycle(features);
  }

  // ---- When a batch raises

  /** The supplies a batch is seeded with. */
  datatype Seed = Seed(paymentMethods: seq<nat>, carriers: seq<nat>, categories: seq<nat>)

  /** Cycle k raises for one of these if no cycle before it has raised: its attempts all collide, something it
      needs was not seeded, its warehouse's id is taken, or it is the first and there is no warehouse. */
  ghost predicate MustFail(start: set<Ref>, seed: Seed, chances: nat -> Chances, k: nat, features: Features) {
    var c := chances(k);
    || Exhausted(c.attempts(0).accepts, 10) || Exhausted(c.attempts(1).accepts, 10)
    || Exhausted(c.attempts(2).accepts, 10) || Exhausted(c.attempts(3).accepts, 10)
    || seed.categories == [] || (features.payments && seed.paymentMethods == []) || (features.shipments && seed.carriers == [])
    || (!c.codeTaken && (Ref.Warehouse(c.ids(0)) in start || WarehouseBefore(chances, k, c.ids(0))))
    || (k == 0 && c.codeTaken && NoWarehouse(start))
  }

  ghost predicate SomeCycleMayFail(start: set<Ref>, seed: Seed, chances: nat -> Chances, n: nat, features: Features) {
    exists k | 0 <= k < n :: MustFail(start, seed, chances, k, features) || IdTaken(start, chances, k)
  }

  ghost predicate WarehouseBefore(chances: nat -> Chances, k: nat, id: nat) {
    exists j | 0 <= j < k :: !chances(j).codeTaken && chances(j).ids(0) == id
  }

  /** The id of cycle k's stock row is taken: whether that matters depends on the pair it picks. */
  ghost predicate IdTaken(start: set<Ref>, chances: nat -> Chances, k: nat) {
    Ref.Inventory(chances(k).ids(1)) in start || exists j | 0 <= j < k :: chances(j).ids(1) == chances(k).ids(1)
  }

  /** Some row has enough for every order of the batch, or the first one to be opened has. */
  ghost predicate StockLasts(start: map<nat, Stock>, chances: nat -> Chances, n: nat) {
    || (exists i | i in start :: start[i].available >= 5 * n)
    || (start == map[] && chances(0).opening >= 5 * n && n > 0)
  }

  ghost predicate LastingRow(ledger: Ledger, n: nat) {
    exists i | i in ledger.openings :: ledger.openings[i].available >= 5 * n
  }

  /** After n cycles that did not raise, the warehouse and stock references are those of the start and theirs. */
  ghost predicate BatchRefs(start: set<Ref>, existing: set<Ref>, chances: nat -> Chances, n: nat) {
    && start <= existing
    && (forall id | Ref.Warehouse(id) in existing :: Ref.Warehouse(id) in start || WarehouseBefore(chances, n, id))
    && (forall id | Ref.Inventory(id) in existing :: Ref.Inventory(id) in start || exists j | 0 <= j < n :: chances(j).ids(1) == id)
    && (forall j | 0 <= j < n && !chances(j).codeTaken :: Ref.Warehouse(chances(j).ids(0)) in existing)
    && (n > 0 ==> !NoWarehouse(existing))
  }

  lemma NoRefsYet(start: set<Ref>, chances: nat -> Chances)
    ensures BatchRefs(start, start, chances, 0)
  {
  }

  lemma MoreRefs(start: set<Ref>, existing: set<Ref>, existing': set<Ref>, inventories: map<nat, Stock>, chances: nat -> Chances, n: nat, picked: (nat, nat))
    requires BatchRefs(start, existing, chances, n) && StockRefs(existing, existing', chances(n), false)
    requires !StockFails(existing, inventories, chances(n).ids, chances(n).codeTaken, picked)
    ensures BatchRefs(start, existing', chances, n + 1)
  {
    forall id | Ref.Warehouse(id) in existing'
      ensures Ref.Warehouse(id) in start || WarehouseBefore(chances, n + 1, id)
    {
      if Ref.Warehouse(id) in existing {
        if WarehouseBefore(chances, n, id) {
          var j :| 0 <= j < n && !chances(j).codeTaken && chances(j).ids(0) == id;
          assert j < n + 1;
        }
      } else {
        assert !chances(n).codeTaken && chances(n).ids(0) == id;
      }
    }
  }

  /** What a cycle meets when none before it has raised. */
  lemma CycleReasons(start: set<Ref>, existing: set<Ref>, inventories: map<nat, Stock>, pool: Pool, seed: Seed, chances: nat -> Chances,
                     k: nat, features: Features, picked: (nat, nat))
    requires BatchRefs(start, existing, chances, k)
    requires pool.categories == seed.categories && pool.paymentMethods == seed.paymentMethods && pool.carriers == seed.carriers
    ensures var c := chances(k);
            && (MustFail(start, seed, chances, k, features) ==> CycleFails(existing, inventories, pool, c, features, picked))
            && (CycleFails(existing, inventories, pool, c, features, picked) ==>
                  || MustFail(start, seed, chances, k, features) || IdTaken(start, chances, k)
                  || (NothingToSell(inventories, c.opening, picked) && !PeopleFail(pool, c.attempts) && !StockFails(existing, inventories, c.ids, c.codeTaken, picked)))
  {
    hide Exhausted, NothingToSell, Stocked;
    var c := chances(k);
    if WarehouseBefore(chances, k, c.ids(0)) {
      var j :| 0 <= j < k && !chances(j).codeTaken && chances(j).ids(0) == c.ids(0);
      assert Ref.Warehouse(chances(j).ids(0)) in existing;
    }
  }

  lemma {:induction false} OutboundAtMost(books: Books, orders: seq<OrderReference>, openings: map<nat, Stock>, n: nat, i: nat)
    requires Sales(books, orders, openings) && n <= |orders|
    ensures Outbound(books.movements[..n], i) <= 5 * n
  {
    if n > 0 {
      OutboundAtMost(books, orders, openings, n - 1, i);
      assert Sale(books.items[n - 1], books.history[n - 1], books.movements[n - 1], orders[n - 1], openings);
      assert Init(books.movements[..n]) == books.movements[..n - 1] && Last(books.movements[..n]) == books.movements[n - 1];
    }
  }

  lemma {:induction false} RefilledIsNat(ledger: Ledger, n: nat, i: nat)
    requires ledger.Legal() && n <= |ledger.refills|
    ensures Refilled(ledger.refills[..n], i) >= 0
  {
    if n > 0 {
      RefilledIsNat(ledger, n - 1, i);
      assert Init(ledger.refills[..n]) == ledger.refills[..n - 1] && Last(ledger.refills[..n]) == ledger.refills[n - 1];
      assert ledger.refills[n - 1] in ledger.refills;
    }
  }

  /** A row that opened with enough for all orders still has stock before the last. */
  lemma StillInStock(ledger: Ledger, inventories: map<nat, Stock>, books: Books, orders: seq<OrderReference>, n: nat)
    requires ledger.Explains(inventories, books.movements) && ledger.Legal() && ledger.openings.Keys == inventories.Keys
    requires Sales(books, orders, ledger.openings) && |orders| < n && LastingRow(ledger, n)
    ensures !NoStock(inventories)
  {
    hide Sale;
    var i :| i in ledger.openings && ledger.openings[i].available >= 5 * n;
    OutboundAtMost(books, orders, ledger.openings, |orders|, i);
    RefilledIsNat(ledger, |ledger.refills|, i);
    assert books.movements[..|orders|] == books.movements && ledger.refills[..|ledger.refills|] == ledger.refills;
    assert inventories[i] == ledger.Remaining(i, books.movements);
  }

  lemma SalesLater(books: Books, orders: seq<OrderReference>, before: Ledger, after: Ledger)
    requires Sales(books, orders, before.openings) && after.Extends(before)
    ensures Sales(books, orders, after.openings)
  {
    forall k | 0 <= k < |orders|
      ensures Sale(books.items[k], books.history[k], books.movements[k], orders[k], after.openings)
    {
      assert Sale(books.items[k], books.history[k], books.movements[k], orders[k], before.openings);
    }
  }

  /** Stock that lasts does not run out in a cycle. */
  lemma NeverRunsOut(before: map<nat, Stock>, after: map<nat, Stock>, ledger: Ledger, ledger': Ledger, books: Books, orders: seq<OrderReference>,
                     c: Chances, picked: (nat, nat), n: nat)
    requires NothingToSell(before, c.opening, picked)
    requires LastingRow(ledger, n) || (before == map[] && c.opening >= 5 * n)
    requires ledger'.Extends(ledger) && ledger'.Legal() && ledger'.Explains(after, books.movements) && ledger'.openings.Keys == after.Keys
    requires Sales(books, orders, ledger.openings) && |orders| < n
    ensures !NoStock(after)
  {
    hide Sales, Ledger.Explains, Ledger.Legal, Ledger.Extends, LastingRow;
    SalesLater(books, orders, ledger, ledger');
    if LastingRow(ledger, n) {
      StillLasting(ledger, ledger', n);
      StillInStock(ledger', after, books, orders, n);
    } else {
      assert false;
    }
  }

  lemma LastingStart(start: map<nat, Stock>, chances: nat -> Chances, n: nat)
    requires StockLasts(start, chances, n)
    ensures LastingRow(Ledger(start, []), n) || (start == map[] && chances(0).opening >= 5 * n && n > 0)
  {
    if i :| i in start && start[i].available >= 5 * n {
      assert i in Ledger(start, []).openings;
    }
  }

  lemma StillLasting(before: Ledger, after: Ledger, n: nat)
    requires LastingRow(before, n) && after.Extends(before)
    ensures LastingRow(after, n)
  {
  }

  lemma StillLasts(inventories: map<nat, Stock>, before: Ledger, after: Ledger, c: Chances, picked: (nat, nat), n: nat)
    requires LastingRow(before, n) || (inventories == map[] && c.opening >= 5 * n)
    requires OpensPicked(inventories, before, after, c, picked) && after.Extends(before)
    ensures LastingRow(after, n)
  {
    if LastingRow(before, n) {
      StillLasting(before, after, n);
    } else {
      assert c.ids(1) in after.openings;
    }
  }

  /** After some cycles of which none raised: none of them had to, and stock that lasts is still there. */
  ghost predicate GoneThrough(start: set<Ref>, existing: set<Ref>, inventories: map<nat, Stock>, ledger: Ledger, seed: Seed,
                              chances: nat -> Chances, features: Features, n: nat, batchSize: nat, lasts: bool)
  {
    && BatchRefs(start, existing, chances, n)
    && (forall k | 0 <= k < n :: !MustFail(start, seed, chances, k, features))
    && (lasts ==> LastingRow(ledger, batchSize) || (n == 0 && inventories == map[] && chances(0).opening >= 5 * batchSize))
  }

  /** The last of the cycles raised: it had to, or the id of its stock row was taken, or the stock ran out. */
  ghost predicate StoppedFor(start: set<Ref>, inventories: map<nat, Stock>, seed: Seed, chances: nat -> Chances, features: Features, n: nat, lasts: bool)
  {
    && n > 0
    && (MustFail(start, seed, chances, n - 1, features) || IdTaken(start, chances, n - 1) || (NoStock(inventories) && !lasts))
  }

  /** A cycle that raises for want of stock, and for nothing before it. */
  ghost predicate RunsOut(existing: set<Ref>, inventories: map<nat, Stock>, pool: Pool, c: Chances, picked: (nat, nat)) {
    && NothingToSell(inventories, c.opening, picked)
    && !PeopleFail(pool, c.attempts) && !StockFails(existing, inventories, c.ids, c.codeTaken, picked)
  }

  lemma NothingStopped(start: set<Ref>, stocked: map<nat, Stock>, seed: Seed, chances: nat -> Chances, features: Features, batchSize: nat)
    ensures GoneThrough(start, start, stocked, Ledger(stocked, []), seed, chances, features, 0, batchSize, StockLasts(stocked, chances, batchSize))
  {
    NoRefsYet(start, chances);
    if StockLasts(stocked, chances, batchSize) {
      LastingStart(stocked, chances, batchSize);
    }
  }

  lemma GoesThrough(start: set<Ref>, existing: set<Ref>, existing': set<Ref>, inventories: map<nat, Stock>, inventories': map<nat, Stock>,
                    ledger: Ledger, ledger': Ledger, pool: Pool, seed: Seed, chances: nat -> Chances, features: Features, n: nat, batchSize: nat,
                    lasts: bool, picked: (nat, nat))
    requires GoneThrough(start, existing, inventories, ledger, seed, chances, features, n, batchSize, lasts)
    requires pool.categories == seed.categories && pool.paymentMethods == seed.paymentMethods && pool.carriers == seed.carriers
    requires !CycleFails(existing, inventories, pool, chances(n), features, picked)
    requires StockRefs(existing, existing', chances(n), false)
    requires OpensPicked(inventories, ledger, ledger', chances(n), picked) && ledger'.Extends(ledger)
    ensures GoneThrough(start, existing', inventories', ledger', seed, chances, features, n + 1, batchSize, lasts)
  {
    hide BatchRefs, MustFail, StockFails, StockRefs, OpensPicked, LastingRow, Ledger.Extends;
    CycleReasons(start, existing, inventories, pool, seed, chances, n, features, picked);
    MoreRefs(start, existing, existing', inventories, chances, n, picked);
    if lasts {
      StillLasts(inventories, ledger, ledger', chances(n), picked, batchSize);
    }
  }

  lemma Stops(start: set<Ref>, existing: set<Ref>, inventories: map<nat, Stock>, inventories': map<nat, Stock>, ledger: Ledger, ledger': Ledger,
              books: Books, orders: seq<OrderReference>, pool: Pool, seed: Seed, chances: nat -> Chances, features: Features, n: nat, batchSize: nat,
              lasts: bool, picked: (nat, nat))
    requires GoneThrough(start, existing, inventories, ledger, seed, chances, features, n, batchSize, lasts)
    requires pool.categories == seed.categories && pool.paymentMethods == seed.paymentMethods && pool.carriers == seed.carriers
    requires CycleFails(existing, inventories, pool, chances(n), features, picked)
    requires RunsOut(existing, inventories, pool, chances(n), picked) ==>
               && NoStock(inventories') && ledger'.Explains(inventories', books.movements) && ledger'.openings.Keys == inventories'.Keys
    requires ledger'.Extends(ledger) && ledger'.Legal()
    requires Sales(books, orders, ledger.openings) && |orders| == n < batchSize
    ensures StoppedFor(start, inventories', seed, chances, features, n + 1, lasts)
  {
    hide BatchRefs, MustFail, IdTaken, CycleFails, StockFails, NothingToSell, PeopleFail, LastingRow, NoStock, Sales,
         Ledger.Extends, Ledger.Legal, Ledger.Explains;
    CycleReasons(start, existing, inventories, pool, seed, chances, n, features, picked);
    if lasts && RunsOut(existing, inventories, pool, chances(n), picked) {
      NeverRunsOut(inventories, inventories', ledger, ledger', books, orders, chances(n), picked, batchSize);
    }
  }

  lemma WhyItStopped(start: set<Ref>, inventories: map<nat, Stock>, seed: Seed, chances: nat -> Chances, features: Features, n: nat, batchSize: nat, lasts: bool)
    requires StoppedFor(start, inventories, seed, chances, features, n, lasts) && n <= batchSize
    ensures (NoStock(inventories) && !lasts) || SomeCycleMayFail(start, seed, chances, batchSize, features)
  {
    hide MustFail, IdTaken;
    assert 0 <= n - 1 < batchSize;
  }

  lemma NoneHadTo(start: set<Ref>, existing: set<Ref>, inventories: map<nat, Stock>, ledger: Ledger, seed: Seed,
                  chances: nat -> Chances, features: Features, n: nat, batchSize: nat, lasts: bool)
    requires GoneThrough(start, existing, inventories, ledger, seed, chances, features, n, batchSize, lasts)
    ensures forall k | 0 <= k < n :: !MustFail(start, seed, chances, k, features)
  {
  }

  lemma NoRefills(chances: nat -> Chances)
    ensures RefilledAs([], Refills(chances, 0))
  {
  }

  lemma MoreRefills(refills: seq<Refill>, refills': seq<Refill>, chances: nat -> Chances, n: nat)
    requires RefilledAs(refills, Refills(chances, n))
    requires if chances(n).skipRestock then refills' == refills else exists i :: refills' == refills + [Refill(i, chances(n).refill)]
    ensures RefilledAs(refills', Refills(chances, n + 1))
  {
  }

  /** A batch of cycles over one connection and the final flush. It raises if a cycle must, and else only if the
      id of a stock row is taken or the stock runs out, which it cannot when one row has five for every order. When
      nothing raised, every stock row is its opening plus its refills minus what the tables' movements took, and
      the orders' rows agree one by one. Its commits are all accounted for exactly when no cycle tears one, which
      the settings alone decide; stock is non-negative and every row has its parents whether or not something raised. */
  method RunBatch(db: Database, flushThreshold: int, batchSize: nat, features: Features, chances: nat -> Chances, seed: Seed)
    returns (raised: bool, market: Market)
    requires db.statements == [] && db.commits == [] && StockOk(db.inventories, db.existing)
    requires Pool([], seed.categories, [], [], [], seed.paymentMethods, seed.carriers).Exists(db.existing)
    requires forall k :: chances(k).Rolled()
    modifies db
    ensures market.db == db && market.Valid()
    ensures (exists k | 0 <= k < batchSize :: MustFail(old(db.existing), seed, chances, k, features)) ==> raised
    ensures raised ==> (NoStock(db.inventories) && !StockLasts(old(db.inventories), chances, batchSize)) || SomeCycleMayFail(old(db.existing), seed, chances, batchSize, features)
    ensures LedgerOf(market.ledger, old(db.inventories), chances, batchSize)
    ensures !raised ==>
              && market.ledger.Explains(db.inventories, SentTo(db.statements, INVENTORY_MOVEMENTS))
              && RefilledAs(market.ledger.refills, Refills(chances, batchSize))
              && |market.pool.orders| == batchSize
              && Sales(Books(SentTo(db.statements, ORDER_ITEMS), SentTo(db.statements, ORDER_STATUS_HISTORY), SentTo(db.statements, INVENTORY_MOVEMENTS)),
                       market.pool.orders, market.ledger.openings)
              && market.writer.pending == 0 && forall t :: market.writer.Buffered(t) == [] && ParentsIn(SentTo(db.statements, t), db.existing)
    ensures !Tears(batchSize, flushThreshold, features) ==> AllAccounted(db.commits, 0, market.ledger)
    ensures !raised ==> (AllAccounted(db.commits, 0, market.ledger) <==> !Tears(batchSize, flushThreshold, features))
  {
    hide Market.Valid, Market.Balanced, Market.OrderBooks, Market.Movements, StockOk, Ledger.Explains, Ledger.Legal, Ledger.Extends, Pool.Exists,
         SentTo, ParentsIn, Sales, OneSale, OneOpening, LedgerOf, AllAccounted, SomeTorn, Tears, TearsAt, PendingAfter, CycleTears,
         MustFail, IdTaken, StockLasts, LastingRow, BatchRefs, CycleFails, PeopleFail, StockFails, NothingToSell, StockRefs, OpensPicked, RefilledAs, NoStock, GoneThrough, StoppedFor, SomeCycleMayFail;
    market := new Market(db, flushThreshold, seed.paymentMethods, seed.carriers, seed.categories);
    raised := false;
    var index := 0;
    StartOfBatch(db.inventories, chances, flushThreshold);
    NoRefills(chances);
    ghost var rows, start, stocked, lasts := RowsPerCycle(features), db.existing, db.inventories, StockLasts(db.inventories, chances, batchSize);
    ghost var supplied := market.pool;
    NothingStopped(start, stocked, seed, chances, features, batchSize);
    while index < batchSize && !raised
      invariant index <= batchSize && market.db == db && fresh(market) && fresh(market.writer) && market.writer.connection == db
      invariant market.writer.flushThreshold == flushThreshold
      invariant market.Valid() && LedgerOf(market.ledger, stocked, chances, index)
      invariant !raised ==>
                  && market.Balanced() && |market.pool.orders| == index
                  && Sales(market.OrderBooks(), market.pool.orders, market.ledger.openings)
                  && RefilledAs(market.ledger.refills, Refills(chances, index))
                  && market.writer.pending == (index * rows) % Max(flushThreshold, 1)
                  && (Tears(index, flushThreshold, features) ==> SomeTorn(db.commits, 0, market.ledger))
      invariant !Tears(index, flushThreshold, features) ==> AllAccounted(db.commits, 0, market.ledger)
      invariant SameSupplies(supplied, market.pool)
      invariant !raised ==> GoneThrough(start, db.existing, db.inventories, market.ledger, seed, chances, features, index, batchSize, lasts)
      invariant raised ==> StoppedFor(start, db.inventories, seed, chances, features, index, lasts)
    {
      var c := chances(index);
      ghost var ledger, commits, books, orders, pool, existing, inventories :=
        market.ledger, db.commits, market.OrderBooks(), market.pool.orders, market.pool, db.existing, db.inventories;
      ghost var picked;
      raised, picked := market.RunCycle(c, features);
      OneCycleMore(ledger, market.ledger, stocked, chances, index);
      CycleTearsIff(index, flushThreshold, features);
      CommitsThen(0, commits, db.commits, ledger, market.ledger);
      if !raised {
        MoreSales(books, market.OrderBooks(), orders, market.pool.orders, ledger, market.ledger);
        MoreRefills(ledger.refills, market.ledger.refills, chances, index);
        GoesThrough(start, existing, db.existing, inventories, db.inventories, ledger, market.ledger, pool, seed, chances, features, index, batchSize, lasts, picked);
      } else {
        if RunsOut(existing, inventories, pool, c, picked) {
          market.BalancedMeans();
        }
        Stops(start, existing, inventories, db.inventories, ledger, market.ledger, books, orders, pool, seed, chances, features, index, batchSize, lasts, picked);
      }
      index := index + 1;
    }
    NoMoreOpened(market.ledger, stocked, chances, index, batchSize);
    StillTears(index, batchSize, flushThreshold, features);
    if raised {
      WhyItStopped(start, db.inventories, seed, chances, features, index, batchSize, lasts);
    } else {
      NoneHadTo(start, db.existing, db.inventories, market.ledger, seed, chances, features, index, batchSize, lasts);
      ghost var commits := db.commits;
      market.FinalFlush();
      SameLedger(market.ledger);
      CommitsThen(0, commits, db.commits, market.ledger, market.ledger);
      if Tears(batchSize, flushThreshold, features) {
        LedgerIsLegal(market.ledger, stocked, chances, batchSize);
        SomeTornNotAccounted(db.commits, 0, market.ledger);
      }
    }
  }

  /** The least it takes to tear a commit, a threshold of two: the customer's address waits, the order's item
      makes two, and the flush commits the stock that was taken without its movement. */
  method TearOneCommit() returns (market: Market)
    ensures market.Valid() && market.Balanced()
    ensures SomeTorn(market.db.commits, 0, market.ledger)
  {
    hide Market.Balanced, Market.OrderBooks, Market.Movements, SomeTorn, AllAccounted, OneSold, OneSale;
    var db := new Database({Ref.Warehouse(0), Ref.Product(0), Ref.Inventory(0)}, map[0 := Stock(0, 0, 10)]);
    market := new Market(db, 2, [], [], []);
    var always := Attempts(k => k, k => true);
    assert always.accepts(0);
    var raised := market.CreateCustomer(always);
    assert market.db.inventories[0].available == 10;
    assert market.writer.pending == 1 && OrderTears(1, 2);
    ghost var before := market.db.commits;
    raised := market.CreateOrder(always, 1);
    SameLedger(market.ledger);
    CommitsThen(0, before, market.db.commits, market.ledger, market.ledger);
  }

  lemma OrderParentsExist(existing: set<Ref>, inventories: map<nat, Stock>, i: nat, pool: Pool, customer: nat)
    requires StockOk(inventories, existing) && i in inventories
    requires pool.Exists(existing) && customer in pool.customers
    ensures {Ref.Customer(customer), Ref.Product(inventories[i].product), Ref.Inventory(i)} <= existing
  {
    assert RowOk(inventories[i], i, existing);
  }

  lemma InStock(before: map<nat, Stock>, i: nat, quantity: int)
    requires i in before
    ensures i in Adjusted(before, i, -quantity)
    ensures Adjusted(Adjusted(before, i, -quantity), i, quantity) == before
  {
  }

  lemma SameLedger(ledger: Ledger)
    ensures ledger.Extends(ledger)
  {
  }

  lemma RestockedLedger(before: map<nat, Stock>, after: map<nat, Stock>, q: int, ledger: Ledger, ledger': Ledger)
    requires Restocked(before, after, q, ledger, ledger')
    ensures exists i :: ledger'.refills == ledger.refills + [Refill(i, q)]
  {
  }

  lemma SameOpenings(ledger: Ledger, id: nat, available: int)
    ensures OneOpening(ledger, ledger, id, available)
  {
  }

  lemma TornOrAccounted(commits: seq<Tables>, from: nat, ledger: Ledger)
    requires ledger.Legal()
    ensures !(SomeTorn(commits, from, ledger) && AllAccounted(commits, from, ledger))
  {
    if SomeTorn(commits, from, ledger) {
      SomeTornNotAccounted(commits, from, ledger);
    }
  }

  lemma ThisSold(before: map<nat, Stock>, i: nat, wanted: nat, order: OrderReference, books: Books, pool: Pool)
    requires i in before && before[i].available > 0
    requires order.product == before[i].product && order.customer in pool.customers
    ensures var q := Min(wanted, before[i].available);
            OneSold(before, Adjusted(before, i, -q), wanted, books, books.WithOrder(order, i, q),
                    pool, pool.(orders := pool.orders + [order]))
  {
  }

  /** A refill and its entry keep the ledger balanced. */
  lemma RestockKeeps(inventories: map<nat, Stock>, existing: set<Ref>, movements: seq<Row>, ledger: Ledger, i: nat, q: int)
    requires ledger.Explains(inventories, movements) && ledger.Legal() && StockOk(inventories, existing) && Neediest(inventories, i)
    requires RESTOCK_MIN <= q <= RESTOCK_MAX
    ensures i in inventories && i in ledger.openings
    ensures var ledger' := ledger.Plus(Refill(i, q));
            && ledger'.Explains(Adjusted(inventories, i, q), movements) && ledger'.Legal() && ledger'.Extends(ledger)
            && StockOk(Adjusted(inventories, i, q), existing)
            && Restocked(inventories, Adjusted(inventories, i, q), q, ledger, ledger')
            && Adjusted(inventories, i, q).Keys == inventories.Keys
  {
    AppendInit(ledger.refills, Refill(i, q));
  }

  lemma PoolAppend(pool: Pool, order: OrderReference, existing: set<Ref>)
    requires pool.Exists(existing) && OrderExists(order, existing)
    ensures pool.(orders := pool.orders + [order]).Exists(existing)
  {
  }

  lemma ParentsAppend(rows: seq<Row>, row: Row, existing: set<Ref>)
    requires ParentsIn(rows, existing) && row.Parents() <= existing
    ensures ParentsIn(rows + [row], existing)
  {
  }

  lemma BuffersGrow(tables: seq<TableName>, rows: map<TableName, seq<Row>>, existing: set<Ref>, more: set<Ref>)
    requires BuffersOk(tables, rows, existing) && existing <= more
    ensures BuffersOk(tables, rows, more)
  {
    forall t | t in rows
      ensures t in tables && ParentsIn(rows[t], more)
    {
      assert ParentsIn(rows[t], existing);
    }
  }
}
