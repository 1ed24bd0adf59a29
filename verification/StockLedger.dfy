/** The stock ledger: what the stock rows must be, given how they opened, what they were refilled with and
    what the movements took out; and which tables, left by a commit, it accounts for. */
module StockLedger {
  import opened Common
  import opened BatchWriter

  const RESTOCK_MIN: nat := 50
  const RESTOCK_MAX: nat := 200

  /** What the movements have taken out of one inventory row. */
  function Outbound(rows: seq<Row>, inventory: nat): int {
    if rows == [] then 0
    else
      Outbound(Init(rows), inventory) +
      if Last(rows).Movement? && Last(rows).inventory == inventory then Last(rows).quantity else 0
  }

  lemma OutboundAppend(rows: seq<Row>, row: Row, inventory: nat)
    ensures Outbound(rows + [row], inventory) ==
            Outbound(rows, inventory) + if row.Movement? && row.inventory == inventory then row.quantity else 0
  {
    AppendInit(rows, row);
  }

  datatype Refill = Refill(inventory: nat, quantity: int)

  /** What the refills have brought into one inventory row. */
  function Refilled(refills: seq<Refill>, inventory: nat): int {
    if refills == [] then 0
    else Refilled(Init(refills), inventory) + if Last(refills).inventory == inventory then Last(refills).quantity else 0
  }

  /** Where the stock of a batch comes from: every row as it was when it opened, and every refill since. */
  datatype Ledger = Ledger(openings: map<nat, Stock>, refills: seq<Refill>) {
    /** A row after these movements: its opening stock, plus its refills, minus what has gone out. */
    function Remaining(i: nat, movements: seq<Row>): Stock
      requires i in openings
    {
      openings[i].(available := openings[i].available + Refilled(refills, i) - Outbound(movements, i))
    }

    /** The rows are exactly what the ledger and the movements say. */
    ghost predicate Explains(inventories: map<nat, Stock>, movements: seq<Row>) {
      && inventories.Keys <= openings.Keys
      && forall i | i in inventories :: inventories[i] == Remaining(i, movements)
    }

    /** Only rows that have opened are refilled, by 50 to 200 each time. */
    ghost predicate Legal() {
      forall r | r in refills :: r.inventory in openings && RESTOCK_MIN <= r.quantity <= RESTOCK_MAX
    }

    function Opened(i: nat, stock: Stock): Ledger {
      Ledger(openings[i := stock], refills)
    }

    function Plus(refill: Refill): Ledger {
      Ledger(openings, refills + [refill])
    }

    /** The ledger as it was after its first n refills, over all rows. */
    function Until(n: nat): Ledger
      requires n <= |refills|
    {
      Ledger(openings, refills[..n])
    }

    ghost predicate Extends(before: Ledger) {
      && before.openings.Keys <= openings.Keys
      && (forall i | i in before.openings :: openings[i] == before.openings[i])
      && before.refills <= refills
    }
  }

  function Adjusted(inventories: map<nat, Stock>, i: nat, change: int): map<nat, Stock>
    requires i in inventories
  {
    inventories[i := inventories[i].(available := inventories[i].available + change)]
  }

  /** Stock that was taken and a movement that records it belong together: the ledger explains the rows
      with the movement exactly if it would explain them, without it, with the quantity put back. */
  lemma ReservedThenRecorded(ledger: Ledger, inventories: map<nat, Stock>, movements: seq<Row>, i: nat, quantity: int, order: nat)
    requires i in inventories
    ensures ledger.Explains(inventories, movements + [Movement(i, order, quantity)]) <==>
            ledger.Explains(Adjusted(inventories, i, quantity), movements)
  {
    var more := movements + [Movement(i, order, quantity)];
    var back := Adjusted(inventories, i, quantity);
    forall j | j in inventories && j in ledger.openings
      ensures inventories[j] == ledger.Remaining(j, more) <==> back[j] == ledger.Remaining(j, movements)
    {
      OutboundAppend(movements, Movement(i, order, quantity), j);
    }
    assert back.Keys == inventories.Keys;
  }

  /** No movement can name an inventory row that does not exist yet. */
  lemma {:induction false} NothingOutboundYet(movements: seq<Row>, existing: set<Ref>, i: nat)
    requires ParentsIn(movements, existing) && Ref.Inventory(i) !in existing
    ensures Outbound(movements, i) == 0
  {
    if movements != [] {
      assert Last(movements) == movements[|movements| - 1];
      NothingOutboundYet(Init(movements), existing, i);
    }
  }

  lemma {:induction false} NotRefilledYet(refills: seq<Refill>, i: nat)
    requires forall r | r in refills :: r.inventory != i
    ensures Refilled(refills, i) == 0
  {
    if refills != [] {
      InitLast(refills);
      NotRefilledYet(Init(refills), i);
    }
  }

  lemma NewRowExplained(ledger: Ledger, inventories: map<nat, Stock>, movements: seq<Row>, existing: set<Ref>, i: nat, stock: Stock)
    requires ledger.Explains(inventories, movements) && ledger.Legal() && i !in ledger.openings
    requires ParentsIn(movements, existing) && Ref.Inventory(i) !in existing
    ensures ledger.Opened(i, stock).Explains(inventories[i := stock], movements)
    ensures ledger.Opened(i, stock).Legal() && ledger.Opened(i, stock).Extends(ledger)
  {
    NothingOutboundYet(movements, existing, i);
    NotRefilledYet(ledger.refills, i);
  }

  // ---- What a commit leaves

  /** The tables of a commit are accounted for: the movements in them, the openings and the refills up to
      some moment give exactly their rows. */
  ghost predicate Accounted(t: Tables, ledger: Ledger) {
    exists n: nat | n <= |ledger.refills| :: ledger.Until(n).Explains(t.inventories, SentTo(t.statements, INVENTORY_MOVEMENTS))
  }

  /** A row of the tables is one to five short of what the ledger says. */
  ghost predicate ShortOf(t: Tables, ledger: Ledger, i: nat) {
    && i in t.inventories && i in ledger.openings
    && 1 <= ledger.Remaining(i, SentTo(t.statements, INVENTORY_MOVEMENTS)).available - t.inventories[i].available <= 5
  }

  /** The commit fell between taking stock and recording it. */
  ghost predicate Torn(t: Tables, ledger: Ledger) {
    exists n: nat, i: nat | n <= |ledger.refills| :: ShortOf(t, ledger.Until(n), i)
  }

  /** Refills are too large to hide a reservation. */
  lemma {:induction false} RefillGap(refills: seq<Refill>, i: nat, n: nat, m: nat)
    requires n <= m <= |refills|
    requires forall r | r in refills :: RESTOCK_MIN <= r.quantity
    ensures Refilled(refills[..m], i) == Refilled(refills[..n], i) || Refilled(refills[..m], i) >= Refilled(refills[..n], i) + RESTOCK_MIN
    decreases m
  {
    if n < m {
      RefillGap(refills, i, n, m - 1);
      assert refills[..m] == refills[..m - 1] + [refills[m - 1]];
      AppendInit(refills[..m - 1], refills[m - 1]);
      assert refills[m - 1] in refills;
    }
  }

  /** Torn tables are accounted for by nothing: no choice of refills explains them. */
  lemma TornIsUnaccounted(t: Tables, ledger: Ledger)
    requires ledger.Legal() && Torn(t, ledger)
    ensures !Accounted(t, ledger)
  {
    var n: nat, i: nat :| n <= |ledger.refills| && ShortOf(t, ledger.Until(n), i);
    forall m: nat | m <= |ledger.refills|
      ensures !ledger.Until(m).Explains(t.inventories, SentTo(t.statements, INVENTORY_MOVEMENTS))
    {
      RefillGap(ledger.refills, i, if n <= m then n else m, if n <= m then m else n);
    }
  }

  lemma AccountedLater(t: Tables, before: Ledger, after: Ledger)
    requires Accounted(t, before) && after.Extends(before)
    ensures Accounted(t, after)
  {
    var n: nat :| n <= |before.refills| && before.Until(n).Explains(t.inventories, SentTo(t.statements, INVENTORY_MOVEMENTS));
    assert after.refills[..n] == before.refills[..n];
    assert after.Until(n).Explains(t.inventories, SentTo(t.statements, INVENTORY_MOVEMENTS));
  }

  lemma TornLater(t: Tables, before: Ledger, after: Ledger)
    requires Torn(t, before) && after.Extends(before)
    ensures Torn(t, after)
  {
    var n: nat, i: nat :| n <= |before.refills| && ShortOf(t, before.Until(n), i);
    assert after.refills[..n] == before.refills[..n];
    assert ShortOf(t, after.Until(n), i);
  }

  /** Tables committed while everything is in them and the ledger is balanced. */
  lemma BalancedIsAccounted(t: Tables, ledger: Ledger)
    requires ledger.Explains(t.inventories, SentTo(t.statements, INVENTORY_MOVEMENTS))
    ensures Accounted(t, ledger)
  {
    assert ledger.refills[..|ledger.refills|] == ledger.refills;
    assert ledger.Until(|ledger.refills|) == ledger;
  }

  /** Tables committed while a reservation is not recorded yet. */
  lemma ShortIsTorn(t: Tables, ledger: Ledger, i: nat, quantity: int)
    requires i in t.inventories && 1 <= quantity <= 5
    requires ledger.Explains(Adjusted(t.inventories, i, quantity), SentTo(t.statements, INVENTORY_MOVEMENTS))
    ensures Torn(t, ledger)
  {
    assert ledger.refills[..|ledger.refills|] == ledger.refills;
    assert ledger.Until(|ledger.refills|) == ledger;
    assert Adjusted(t.inventories, i, quantity)[i] == ledger.Remaining(i, SentTo(t.statements, INVENTORY_MOVEMENTS));
    assert ShortOf(t, ledger.Until(|ledger.refills|), i);
  }

  /** Every commit from the given one on is accounted for. */
  ghost predicate AllAccounted(commits: seq<Tables>, from: nat, ledger: Ledger) {
    forall k | from <= k < |commits| :: Accounted(commits[k], ledger)
  }

  ghost predicate AllTorn(commits: seq<Tables>, from: nat, ledger: Ledger) {
    forall k | from <= k < |commits| :: Torn(commits[k], ledger)
  }

  lemma MoreTorn(first: seq<Tables>, from: nat, all: seq<Tables>, ledger: Ledger)
    requires first <= all && AllTorn(first, from, ledger) && AllTorn(all, |first|, ledger)
    ensures AllTorn(all, from, ledger)
  {
    forall k | from <= k < |all|
      ensures Torn(all[k], ledger)
    {
      if k < |first| {
        assert all[k] == first[k];
      }
    }
  }

  /** The commits of an order: those before its movement is buffered are torn, the one after it is not. */
  lemma OrderCommits(from: nat, torn: seq<Tables>, all: seq<Tables>, ledger: Ledger)
    requires from <= |torn| && torn <= all && AllTorn(torn, from, ledger) && AllAccounted(all, |torn|, ledger)
    ensures if |torn| > from then SomeTorn(all, from, ledger) else AllAccounted(all, from, ledger)
  {
    if |torn| > from {
      assert all[from] == torn[from];
    }
  }

  ghost predicate SomeTorn(commits: seq<Tables>, from: nat, ledger: Ledger) {
    exists k | from <= k < |commits| :: Torn(commits[k], ledger)
  }

  lemma NoCommits(commits: seq<Tables>, ledger: Ledger)
    ensures AllAccounted(commits, |commits|, ledger) && !SomeTorn(commits, |commits|, ledger)
  {
  }

  /** First these commits, then those, the ledger growing meanwhile. */
  lemma MoreAccounted(first: seq<Tables>, from: nat, ledger: Ledger, all: seq<Tables>, later: Ledger)
    requires first <= all && later.Extends(ledger)
    requires AllAccounted(first, from, ledger) && AllAccounted(all, |first|, later)
    ensures AllAccounted(all, from, later)
  {
    forall k | from <= k < |all|
      ensures Accounted(all[k], later)
    {
      if k < |first| {
        assert all[k] == first[k];
        AccountedLater(first[k], ledger, later);
      }
    }
  }

  lemma StillTorn(first: seq<Tables>, from: nat, ledger: Ledger, all: seq<Tables>, later: Ledger)
    requires first <= all && later.Extends(ledger) && SomeTorn(first, from, ledger)
    ensures SomeTorn(all, from, later)
  {
    var k :| from <= k < |first| && Torn(first[k], ledger);
    assert all[k] == first[k];
    TornLater(all[k], ledger, later);
  }

  lemma CommitsThen(from: nat, first: seq<Tables>, all: seq<Tables>, ledger: Ledger, later: Ledger)
    requires from <= |first| && first <= all && later.Extends(ledger)
    ensures AllAccounted(first, from, ledger) && AllAccounted(all, |first|, later) ==> AllAccounted(all, from, later)
    ensures SomeTorn(first, from, ledger) || SomeTorn(all, |first|, later) ==> SomeTorn(all, from, later)
  {
    if AllAccounted(first, from, ledger) && AllAccounted(all, |first|, later) {
      MoreAccounted(first, from, ledger, all, later);
    }
    if SomeTorn(first, from, ledger) {
      StillTorn(first, from, ledger, all, later);
    }
  }

  lemma SomeTornNotAccounted(commits: seq<Tables>, from: nat, ledger: Ledger)
    requires ledger.Legal() && SomeTorn(commits, from, ledger)
    ensures !AllAccounted(commits, from, ledger)
  {
    var k :| from <= k < |commits| && Torn(commits[k], ledger);
    TornIsUnaccounted(commits[k], ledger);
  }

  lemma ExtendsTrans(a: Ledger, b: Ledger, c: Ledger)
    requires b.Extends(a) && c.Extends(b)
    ensures c.Extends(a)
  {
  }
}
