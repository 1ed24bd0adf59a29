/** Buffered inserts: rows are collected per table over many cycles and sent as one statement a table. */
module BatchWriter {
  import opened Common

  /** A row some other row can refer to; all of them are inserted immediately. */
  datatype Ref =
    | Customer(id: nat) | Seller(id: nat) | Category(id: nat) | Product(id: nat) | Warehouse(id: nat)
    | Inventory(id: nat) | Order(id: nat) | PaymentMethod(id: nat) | Carrier(id: nat)

  /** The buffered tables. */
  datatype TableName =
    | CUSTOMER_ADDRESSES | ORDER_ITEMS | ORDER_STATUS_HISTORY | INVENTORY_MOVEMENTS | PAYMENTS | SHIPMENTS | REVIEWS

  /** A buffered row, with the columns other rows depend on. */
  datatype Row =
    | Address(customer: nat)
    | OrderItem(order: nat, product: nat, quantity: int)
    | OrderHistory(order: nat)
    | Movement(inventory: nat, order: nat, quantity: int)
    | Payment(order: nat, paymentMethod: nat)
    | Shipment(order: nat, carrier: nat)
    | Review(order: nat, customer: nat, product: nat)
  {
    /** The foreign keys of the row's table. */
    function Parents(): set<Ref> {
      match this
      case Address(customer) => {Ref.Customer(customer)}
      case OrderItem(order, product, _) => {Ref.Order(order), Ref.Product(product)}
      case OrderHistory(order) => {Ref.Order(order)}
      case Movement(inventory, order, _) => {Ref.Inventory(inventory), Ref.Order(order)}
      case Payment(order, paymentMethod) => {Ref.Order(order), Ref.PaymentMethod(paymentMethod)}
      case Shipment(order, carrier) => {Ref.Order(order), Ref.Carrier(carrier)}
      case Review(order, customer, product) => {Ref.Order(order), Ref.Customer(customer), Ref.Product(product)}
    }

    function Table(): TableName {
      match this
      case Address(_) => CUSTOMER_ADDRESSES
      case OrderItem(_, _, _) => ORDER_ITEMS
      case OrderHistory(_) => ORDER_STATUS_HISTORY
      case Movement(_, _, _) => INVENTORY_MOVEMENTS
      case Payment(_, _) => PAYMENTS
      case Shipment(_, _) => SHIPMENTS
      case Review(_, _, _) => REVIEWS
    }
  }

  predicate ParentsIn(rows: seq<Row>, existing: set<Ref>) {
    forall k | 0 <= k < |rows| :: rows[k].Parents() <= existing
  }

  /** What every row refers to is there: an address its customer, an item its order and product, a history row its
      order, a movement its stock row and order, a payment its order and method, a shipment its order and carrier,
      and a review its order, customer and product. */
  lemma NothingDangles(rows: seq<Row>, existing: set<Ref>)
    ensures ParentsIn(rows, existing) <==> forall k | 0 <= k < |rows| ::
              match rows[k]
              case Address(customer) => Ref.Customer(customer) in existing
              case OrderItem(order, product, _) => Ref.Order(order) in existing && Ref.Product(product) in existing
              case OrderHistory(order) => Ref.Order(order) in existing
              case Movement(inventory, order, _) => Ref.Inventory(inventory) in existing && Ref.Order(order) in existing
              case Payment(order, paymentMethod) => Ref.Order(order) in existing && Ref.PaymentMethod(paymentMethod) in existing
              case Shipment(order, carrier) => Ref.Order(order) in existing && Ref.Carrier(carrier) in existing
              case Review(order, customer, product) =>
                Ref.Order(order) in existing && Ref.Customer(customer) in existing && Ref.Product(product) in existing
  {
    if ParentsIn(rows, existing) {
      forall k | 0 <= k < |rows|
        ensures rows[k].Parents() <= existing
      {
      }
    }
  }

  /** An inventory row: where it is, what it stocks and how much of it is available. */
  datatype Stock = Stock(warehouse: nat, product: nat, available: int)

  datatype Statement = Statement(table: TableName, rows: seq<Row>)

  /** What a commit makes durable: the stock and the statements up to it. A crash falls back to the last. */
  datatype Tables = Tables(inventories: map<nat, Stock>, statements: seq<Statement>)

  /** What statements have sent to one table, in order. */
  function SentTo(statements: seq<Statement>, table: TableName): seq<Row> {
    if statements == [] then []
    else SentTo(Init(statements), table) + if Last(statements).table == table then Last(statements).rows else []
  }

  /** The connection: the rows present, the stock they carry, and the statements and commits so far. */
  class Database {
    var existing: set<Ref>
    var inventories: map<nat, Stock>
    var statements: seq<Statement>
    var commits: seq<Tables>

    constructor (existing: set<Ref>, inventories: map<nat, Stock>)
      ensures this.existing == existing && this.inventories == inventories && statements == [] && commits == []
    {
      this.existing, this.inventories := existing, inventories;
      statements, commits := [], [];
    }

    /** A multi-row insert; the database would reject it if a parent were missing. */
    method InsertRows(table: TableName, rows: seq<Row>)
      requires ParentsIn(rows, existing)
      modifies this`statements
      ensures statements == old(statements) + [Statement(table, rows)]
    {
      statements := statements + [Statement(table, rows)];
    }

    method Commit()
      modifies this`commits
      ensures commits == old(commits) + [Tables(inventories, statements)]
    {
      commits := commits + [Tables(inventories, statements)];
    }
  }

  class Writer {
    const connection: Database
    const flushThreshold: int
    /** The buffered tables in the order they were first added to, and their rows. */
    var tables: seq<TableName>
    var rows: map<TableName, seq<Row>>
    var pending: int

    constructor (connection: Database, flushThreshold: int)
      ensures this.connection == connection && this.flushThreshold == flushThreshold
      ensures Valid() && pending == 0 && forall t :: Buffered(t) == []
    {
      this.connection, this.flushThreshold := connection, flushThreshold;
      tables, rows, pending := [], map[], 0;
    }

    function Buffered(table: TableName): seq<Row>
      reads this`rows
    {
      if table in rows then rows[table] else []
    }

    /** Everything ever added for a table: what was sent, then what still waits. */
    function Added(table: TableName): seq<Row>
      reads this`rows, connection`statements
    {
      SentTo(connection.statements, table) + Buffered(table)
    }

    ghost predicate Valid()
      reads this, connection`existing
    {
      BuffersOk(tables, rows, connection.existing) && pending == Total(tables, rows)
    }

    /** Buffer one row. */
    method Append(row: Row)
      requires Valid() && row.Parents() <= connection.existing
      modifies this`tables, this`rows, this`pending
      ensures Valid() && pending == old(pending) + 1 > 0
      ensures forall t :: Buffered(t) == With(old(Buffered(t)), t, row)
    {
      hide BuffersOk, Total;
      BufferRow(tables, rows, row, connection.existing);
      var table := row.Table();
      if table !in rows {
        tables := tables + [table];
        rows := rows[table := []];
      }
      rows := rows[table := rows[table] + [row]];
      pending := pending + 1;
      assert rows == old(rows)[table := (if table in old(rows) then old(rows)[table] else []) + [row]];
    }

    /** Buffer one row whose parents exist, and flush at the threshold, wherever in a cycle that is. */
    method Add(row: Row)
      requires Valid() && row.Parents() <= connection.existing
      modifies this, connection`statements, connection`commits
      ensures Valid() && unchanged(connection`existing, connection`inventories)
      ensures forall t :: Added(t) == With(old(Added(t)), t, row)
      ensures pending == PendingAfter(old(pending), flushThreshold, 1)
      ensures old(pending) + 1 >= flushThreshold ==>
                && (forall t :: Buffered(t) == [])
                && connection.commits == old(connection.commits) + [Tables(connection.inventories, connection.statements)]
      ensures old(pending) + 1 < flushThreshold ==> unchanged(connection)
    {
      Append(row);
      forall t
        ensures Added(t) == With(old(Added(t)), t, row)
      {
        ConcatAssociates(SentTo(connection.statements, t), old(Buffered(t)), [row]);
      }
      if pending >= flushThreshold {
        Flush();
        forall t
          ensures Added(t) == With(old(Added(t)), t, row)
        {
          AddedIsSent(t);
        }
      }
    }

    lemma AddedIsSent(t: TableName)
      requires Buffered(t) == []
      ensures Added(t) == SentTo(connection.statements, t)
    {
    }

    /** Send one table's rows, if it has any. */
    method SendTable(table: TableName)
      requires table in rows && ParentsIn(rows[table], connection.existing)
      modifies this`rows, connection`statements
      ensures rows == old(rows)[table := []]
      ensures forall t :: Added(t) == old(Added(t))
      ensures connection.statements == old(connection.statements) + StatementOf(table, old(rows)[table])
    {
      if |rows[table]| > 0 {
        ghost var waiting := rows[table];
        connection.InsertRows(table, rows[table]);
        rows := rows[table := []];
        AppendInit(old(connection.statements), Statement(table, waiting));
        forall t ensures Added(t) == old(Added(t)) {
          assert old(SentTo(connection.statements, t)) + [] == old(SentTo(connection.statements, t));
          assert SentTo(connection.statements, t) + [] == SentTo(connection.statements, t);
        }
      } else {
        assert rows == old(rows)[table := []];
      }
    }

    /** Send one statement per table that has rows, in first-added order, and commit. */
    method Flush()
      requires Valid()
      modifies this`rows, this`pending, connection`statements, connection`commits
      ensures Valid() && unchanged(connection`existing, connection`inventories)
      ensures pending == 0 && forall t :: Buffered(t) == []
      ensures forall t :: SentTo(connection.statements, t) == old(Added(t))
      ensures connection.statements == old(connection.statements) + StatementsOf(old(tables), old(rows))
      ensures connection.commits ==
              old(connection.commits) + if old(pending) == 0 then [] else [Tables(connection.inventories, connection.statements)]
    {
      hide BuffersOk, Total, SentTo, ParentsIn, StatementOf;
      if pending == 0 {
        NothingPending(tables, rows, connection.existing);
        NothingToSend(tables, rows);
        forall t ensures SentTo(connection.statements, t) == Added(t) { AddedIsSent(t); }
        return;
      }
      var i := 0;
      while i < |tables|
        invariant 0 <= i <= |tables|
        invariant BuffersOk(tables, rows, connection.existing)
        invariant SentUpTo(tables, rows, i)
        invariant forall t :: Added(t) == old(Added(t))
        invariant connection.commits == old(connection.commits)
        invariant rows.Keys == old(rows.Keys)
        invariant forall k | i <= k < |tables| && tables[k] in rows :: rows[tables[k]] == old(rows)[tables[k]]
        invariant connection.statements == old(connection.statements) + StatementsOf(tables[..i], old(rows))
      {
        TableIsKnown(tables, rows, i, connection.existing);
        assert tables[..i + 1] == tables[..i] + [tables[i]];
        OneMoreStatement(old(connection.statements), tables[..i], tables[i], old(rows));
        SendTable(tables[i]);
        i := i + 1;
      }
      assert tables[..i] == tables;
      connection.Commit();
      pending := 0;
      NoneLeft(tables, rows, connection.existing);
      forall t ensures SentTo(connection.statements, t) == Added(t) { AddedIsSent(t); }
    }
  }

  /** A table's rows with one more, if it is that row's table. */
  function With(rows: seq<Row>, table: TableName, row: Row): seq<Row> {
    if table == row.Table() then rows + [row] else rows
  }

  // ---- When a flush comes

  /** The rows pending after n more, with a flush whenever the threshold is reached. */
  function PendingAfter(pending: int, flushThreshold: int, n: nat): int {
    if n == 0 then pending
    else
      var before := PendingAfter(pending, flushThreshold, n - 1);
      if before + 1 >= flushThreshold then 0 else before + 1
  }

  /** Flushes come at every threshold-th row: what is pending is what is left of all rows added. */
  lemma {:induction false} PendingIsRest(flushThreshold: int, rows: nat, n: nat)
    ensures PendingAfter(rows % Max(flushThreshold, 1), flushThreshold, n) == (rows + n) % Max(flushThreshold, 1)
  {
    if n > 0 {
      PendingIsRest(flushThreshold, rows, n - 1);
      RestOfNext(rows + n - 1, Max(flushThreshold, 1));
    }
  }

  lemma RestOfNext(rows: nat, m: nat)
    requires m >= 1
    ensures (rows + 1) % m == if rows % m + 1 >= m then 0 else rows % m + 1
  {
    var q, r := rows / m, rows % m;
    assert rows == q * m + r;
    if r + 1 >= m {
      RestUnique(rows + 1, m, q + 1, 0) by {
        assert (q + 1) * m == q * m + m;
      }
    } else {
      RestUnique(rows + 1, m, q, r + 1);
    }
  }

  lemma RestUnique(n: nat, m: nat, q: nat, r: nat)
    requires m >= 1 && r < m && n == q * m + r
    ensures n % m == r
  {
    var d := n / m - q;
    assert d * m == r - n % m;
  }

  lemma PendingSteps(pending: int, flushThreshold: int, n: nat, more: nat)
    ensures PendingAfter(PendingAfter(pending, flushThreshold, n), flushThreshold, more) == PendingAfter(pending, flushThreshold, n + more)
  {
    if more > 0 {
      PendingSteps(pending, flushThreshold, n, more - 1);
    }
  }

  // ---- Counting the buffered rows

  /** The tables listed are those with a buffer, each once, and every buffered row has its parents. */
  ghost predicate BuffersOk(tables: seq<TableName>, rows: map<TableName, seq<Row>>, existing: set<Ref>) {
    && (forall t | t in tables :: t in rows)
    && (forall t | t in rows :: t in tables && ParentsIn(rows[t], existing))
    && (forall i, j | 0 <= i < j < |tables| :: tables[i] != tables[j])
  }

  ghost predicate SentUpTo(tables: seq<TableName>, rows: map<TableName, seq<Row>>, n: nat) {
    forall k | 0 <= k < n <= |tables| :: tables[k] in rows && rows[tables[k]] == []
  }

  function Total(tables: seq<TableName>, rows: map<TableName, seq<Row>>): int
    requires forall t | t in tables :: t in rows
  {
    if tables == [] then 0
    else
      InitLast(tables);
      Total(Init(tables), rows) + |rows[Last(tables)]|
  }

  lemma {:induction false} TotalIsNat(tables: seq<TableName>, rows: map<TableName, seq<Row>>)
    requires forall t | t in tables :: t in rows
    ensures Total(tables, rows) >= 0
  {
    if tables != [] {
      InitLast(tables);
      TotalIsNat(Init(tables), rows);
    }
  }

  lemma {:induction false} TotalOther(tables: seq<TableName>, rows: map<TableName, seq<Row>>, table: TableName, more: seq<Row>)
    requires forall t | t in tables :: t in rows
    requires table !in tables
    ensures Total(tables, rows[table := more]) == Total(tables, rows)
  {
    if tables != [] {
      InitLast(tables);
      TotalOther(Init(tables), rows, table, more);
    }
  }

  lemma {:induction false} TotalAppend(tables: seq<TableName>, rows: map<TableName, seq<Row>>, table: TableName, row: Row)
    requires (forall t | t in tables :: t in rows) && table in tables
    requires forall i, j | 0 <= i < j < |tables| :: tables[i] != tables[j]
    ensures Total(tables, rows[table := rows[table] + [row]]) == Total(tables, rows) + 1
  {
    InitLast(tables);
    if Last(tables) == table {
      TotalOther(Init(tables), rows, table, rows[table] + [row]);
    } else {
      TotalAppend(Init(tables), rows, table, row);
    }
  }

  lemma TotalNew(tables: seq<TableName>, rows: map<TableName, seq<Row>>, t: TableName, row: Row)
    requires (forall u | u in tables :: u in rows) && t !in tables
    ensures Total(tables + [t], rows[t := [row]]) == Total(tables, rows) + 1
  {
    AppendInit(tables, t);
    TotalOther(tables, rows, t, [row]);
  }

  lemma MoreBuffered(tables: seq<TableName>, rows: map<TableName, seq<Row>>, row: Row, existing: set<Ref>)
    requires BuffersOk(tables, rows, existing) && row.Parents() <= existing
    ensures var t := row.Table();
            BuffersOk(if t in rows then tables else tables + [t], rows[t := (if t in rows then rows[t] else []) + [row]], existing)
  {
  }

  /** Buffering a row whose parents exist keeps the books. */
  lemma BufferRow(tables: seq<TableName>, rows: map<TableName, seq<Row>>, row: Row, existing: set<Ref>)
    requires BuffersOk(tables, rows, existing) && row.Parents() <= existing
    ensures var t := row.Table();
            var tables' := if t in rows then tables else tables + [t];
            var rows' := rows[t := (if t in rows then rows[t] else []) + [row]];
            && BuffersOk(tables', rows', existing)
            && Total(tables', rows') == Total(tables, rows) + 1 > 0
  {
    hide ParentsIn;
    var t := row.Table();
    MoreBuffered(tables, rows, row, existing);
    TotalIsNat(tables, rows);
    if t in rows {
      TotalAppend(tables, rows, t, row);
    } else {
      TotalNew(tables, rows, t, row);
      assert [] + [row] == [row];
    }
  }

  lemma TableIsKnown(tables: seq<TableName>, rows: map<TableName, seq<Row>>, i: nat, existing: set<Ref>)
    requires i < |tables| && BuffersOk(tables, rows, existing)
    ensures tables[i] in rows && ParentsIn(rows[tables[i]], existing)
    ensures forall k | i < k < |tables| :: tables[k] != tables[i]
    ensures BuffersOk(tables, rows[tables[i] := []], existing)
    ensures SentUpTo(tables, rows, i) ==> SentUpTo(tables, rows[tables[i] := []], i + 1)
  {
  }

  lemma {:induction false} ZeroTotal(tables: seq<TableName>, rows: map<TableName, seq<Row>>)
    requires forall t | t in tables :: t in rows
    ensures Total(tables, rows) == 0 <==> forall t | t in tables :: rows[t] == []
  {
    if tables != [] {
      InitLast(tables);
      TotalIsNat(Init(tables), rows);
      ZeroTotal(Init(tables), rows);
    }
  }

  lemma NothingPending(tables: seq<TableName>, rows: map<TableName, seq<Row>>, existing: set<Ref>)
    requires BuffersOk(tables, rows, existing) && Total(tables, rows) == 0
    ensures forall t | t in rows :: rows[t] == []
  {
    ZeroTotal(tables, rows);
  }

  lemma NoneLeft(tables: seq<TableName>, rows: map<TableName, seq<Row>>, existing: set<Ref>)
    requires BuffersOk(tables, rows, existing) && SentUpTo(tables, rows, |tables|)
    ensures Total(tables, rows) == 0 && forall t | t in rows :: rows[t] == []
  {
    ZeroTotal(tables, rows);
  }

  // ---- The order of the tables does not matter

  /** A table without rows gets no statement. */
  function StatementOf(table: TableName, rows: seq<Row>): seq<Statement> {
    if rows == [] then [] else [Statement(table, rows)]
  }

  /** The statements of a flush that takes the tables in this order. */
  function StatementsOf(tables: seq<TableName>, rows: map<TableName, seq<Row>>): seq<Statement> {
    if tables == [] then []
    else
      StatementsOf(Init(tables), rows) +
      StatementOf(Last(tables), if Last(tables) in rows then rows[Last(tables)] else [])
  }

  lemma OneMoreStatement(before: seq<Statement>, tables: seq<TableName>, table: TableName, rows: map<TableName, seq<Row>>)
    requires table in rows
    ensures before + StatementsOf(tables + [table], rows) == before + StatementsOf(tables, rows) + StatementOf(table, rows[table])
  {
    AppendInit(tables, table);
    ConcatAssociates(before, StatementsOf(tables, rows), StatementOf(table, rows[table]));
  }

  lemma {:induction false} NothingToSend(tables: seq<TableName>, rows: map<TableName, seq<Row>>)
    requires forall t | t in rows :: rows[t] == []
    ensures StatementsOf(tables, rows) == []
  {
    if tables != [] {
      NothingToSend(Init(tables), rows);
    }
  }

  ghost predicate Distinct(tables: seq<TableName>) {
    forall i, j | 0 <= i < j < |tables| :: tables[i] != tables[j]
  }

  /** Whatever order a flush takes the buffered tables in, each table receives the same rows. */
  lemma FlushOrderIrrelevant(before: seq<Statement>, tables: seq<TableName>, other: seq<TableName>,
                             rows: map<TableName, seq<Row>>, table: TableName)
    requires Distinct(tables) && Distinct(other) && forall t :: t in tables <==> t in other
    ensures SentTo(before + StatementsOf(tables, rows), table) == SentTo(before + StatementsOf(other, rows), table)
  {
    SentToConcat(before, StatementsOf(tables, rows), table);
    SentToConcat(before, StatementsOf(other, rows), table);
    EachGetsItsRows(tables, rows, table);
    EachGetsItsRows(other, rows, table);
  }

  lemma {:induction false} SentToConcat(a: seq<Statement>, b: seq<Statement>, table: TableName)
    ensures SentTo(a + b, table) == SentTo(a, table) + SentTo(b, table)
  {
    if b == [] {
      assert a + b == a;
    } else {
      assert Init(a + b) == a + Init(b) && Last(a + b) == Last(b);
      SentToConcat(a, Init(b), table);
    }
  }

  lemma SentOne(table: TableName, rows: seq<Row>, other: TableName)
    ensures SentTo(StatementOf(table, rows), other) == if other == table then rows else []
  {
    if rows != [] {
      assert Init([Statement(table, rows)]) == [];
    }
  }

  /** A flush gives every table it takes exactly that table's buffered rows. */
  lemma {:induction false} EachGetsItsRows(tables: seq<TableName>, rows: map<TableName, seq<Row>>, table: TableName)
    requires Distinct(tables)
    ensures SentTo(StatementsOf(tables, rows), table) == if table in tables && table in rows then rows[table] else []
  {
    if tables != [] {
      InitLast(tables);
      EachGetsItsRows(Init(tables), rows, table);
      var last := Last(tables);
      var sent := StatementOf(last, if last in rows then rows[last] else []);
      SentToConcat(StatementsOf(Init(tables), rows), sent, table);
      SentOne(last, if last in rows then rows[last] else [], table);
      assert last !in Init(tables);
    }
  }
}
