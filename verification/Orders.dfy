/** The life of an order: the status progression tick by tick, and what it leaves in the history. */
module Orders {
  import opened Common

  datatype Status = PENDING | PAID | PROCESSING | SHIPPED | DELIVERED | CANCELLED

  datatype Order = Order(status: Status, createdAt: real, updatedAt: real)

  datatype HistoryRow = HistoryRow(orderId: nat, previous: Option<Status>, current: Status)

  datatype Rule = Rule(from: Status, next: Status, minAge: real, probability: real, cancel: real)

  /** The forward rules, each with its stage's cancellation probability. */
  function RuleFor(status: Status): (rule: Option<Rule>)
    ensures rule.Some? ==> rule.value.from == status && rule.value.minAge > 0.0
  {
    match status
    case PENDING => Some(Rule(PENDING, PAID, 60.0, 0.15, 0.02))
    case PAID => Some(Rule(PAID, PROCESSING, 120.0, 0.10, 0.01))
    case PROCESSING => Some(Rule(PROCESSING, SHIPPED, 180.0, 0.08, 0.005))
    case SHIPPED => Some(Rule(SHIPPED, DELIVERED, 300.0, 0.05, 0.0))
    case _ => None
  }

  predicate IsRule(rule: Rule) {
    RuleFor(rule.from) == Some(rule)
  }

  /** The statuses that have a rule, in the order a tick visits them. */
  const RULE_ORDER := [PENDING, PAID, PROCESSING, SHIPPED]

  const CANDIDATES_PER_STATUS_PER_TICK: nat := 15

  /** What one roll of the dice makes of a candidate. */
  function Decide(rule: Rule, roll: real): Option<Status> {
    if roll < rule.cancel then Some(CANCELLED)
    else if roll < rule.cancel + rule.probability then Some(rule.next)
    else None
  }

  type Table = map<nat, Order>

  predicate Eligible(orders: Table, id: nat, rule: Rule, now: real) {
    id in orders && orders[id].status == rule.from && orders[id].updatedAt <= now - rule.minAge
  }

  // ---- Candidates

  ghost predicate Distinct(ids: seq<nat>) {
    forall i, j | 0 <= i < j < |ids| :: ids[i] != ids[j]
  }

  /** The query's answer: eligible orders, oldest first, none skipped for a younger one, all of them
      when they fit. */
  ghost predicate OldestFirst(orders: Table, rule: Rule, now: real, limit: nat, ids: seq<nat>) {
    && |ids| <= limit && Distinct(ids)
    && (forall i | 0 <= i < |ids| :: Eligible(orders, ids[i], rule, now))
    && (forall i, j | 0 <= i < j < |ids| :: orders[ids[i]].updatedAt <= orders[ids[j]].updatedAt)
    && (forall id, i | Eligible(orders, id, rule, now) && id !in ids && 0 <= i < |ids| :: orders[ids[i]].updatedAt <= orders[id].updatedAt)
    && (|ids| < limit ==> forall id | Eligible(orders, id, rule, now) :: id in ids)
  }

  predicate Oldest(orders: Table, ids: set<nat>, id: nat)
    requires ids <= orders.Keys
  {
    id in ids && forall other | other in ids :: orders[id].updatedAt <= orders[other].updatedAt
  }

  lemma {:induction false} OldestExists(orders: Table, ids: set<nat>)
    requires ids != {} && ids <= orders.Keys
    ensures exists id :: Oldest(orders, ids, id)
    decreases ids
  {
    var some :| some in ids;
    if ids == {some} {
      assert Oldest(orders, ids, some);
    } else {
      OldestExists(orders, ids - {some});
      var id :| Oldest(orders, ids - {some}, id);
      assert Oldest(orders, ids, if orders[id].updatedAt <= orders[some].updatedAt then id else some);
    }
  }

  method FindEligible(orders: Table, rule: Rule, now: real, limit: nat) returns (ids: seq<nat>)
    ensures OldestFirst(orders, rule, now, limit, ids)
  {
    ids := [];
    var rest := set id | id in orders && Eligible(orders, id, rule, now);
    while rest != {} && |ids| < limit
      invariant |ids| <= limit && Distinct(ids)
      invariant rest <= orders.Keys
      invariant forall id :: Eligible(orders, id, rule, now) <==> id in rest || id in ids
      invariant forall id | id in rest :: id !in ids
      invariant forall i | 0 <= i < |ids| :: ids[i] in ids
      invariant forall i, j | 0 <= i < j < |ids| :: orders[ids[i]].updatedAt <= orders[ids[j]].updatedAt
      invariant forall id, i | id in rest && 0 <= i < |ids| :: orders[ids[i]].updatedAt <= orders[id].updatedAt
      decreases rest
    {
      OldestExists(orders, rest);
      var id :| id in rest && Oldest(orders, rest, id);
      ids := ids + [id];
      rest := rest - {id};
    }
  }

  // ---- One tick

  /** A candidate and its roll. */
  datatype Considered = Considered(orderId: nat, rule: Rule, roll: real)

  /** The candidates took consecutive rolls from the n-th on, each under one of the rules. */
  ghost predicate Rolled(considered: seq<Considered>, rolls: nat -> real, n: nat) {
    forall k | 0 <= k < |considered| :: considered[k].roll == rolls(n + k) && IsRule(considered[k].rule)
  }

  /** The history rows the considered candidates give rise to. */
  function RowsOf(considered: seq<Considered>): seq<HistoryRow> {
    if considered == [] then []
    else
      var c := Last(considered);
      var moved := Decide(c.rule, c.roll);
      RowsOf(Init(considered)) + if moved.Some? then [HistoryRow(c.orderId, Some(c.rule.from), moved.value)] else []
  }

  /** A row that takes an order of the table one legal step further. */
  predicate LegalMove(orders: Table, row: HistoryRow, now: real) {
    && row.previous.Some? && RuleFor(row.previous.value).Some?
    && var rule := RuleFor(row.previous.value).value;
       && Eligible(orders, row.orderId, rule, now)
       && (row.current == rule.next || (row.current == CANCELLED && rule.cancel > 0.0))
  }

  ghost predicate HasRow(rows: seq<HistoryRow>, id: nat) {
    exists k | 0 <= k < |rows| :: rows[k].orderId == id
  }

  function MoveOf(orders: Table, row: HistoryRow, now: real): Table {
    if row.orderId in orders then orders[row.orderId := orders[row.orderId].(status := row.current, updatedAt := now)]
    else orders
  }

  /** The orders after the given rows, at the tick's time. */
  function Applied(before: Table, rows: seq<HistoryRow>, now: real): Table {
    if rows == [] then before else MoveOf(Applied(before, Init(rows), now), Last(rows), now)
  }

  /** Every row is a legal move of an order as it was before the tick, and no order has two. */
  ghost predicate LegalRows(before: Table, rows: seq<HistoryRow>, now: real) {
    rows == [] ||
    (LegalRows(before, Init(rows), now) && !HasRow(Init(rows), Last(rows).orderId) && LegalMove(before, Last(rows), now))
  }

  ghost predicate Progressed(before: Table, rows: seq<HistoryRow>, after: Table, now: real) {
    after == Applied(before, rows, now) && LegalRows(before, rows, now)
  }

  function Joined(parts: seq<seq<Considered>>): seq<Considered> {
    if parts == [] then [] else Joined(Init(parts)) + Last(parts)
  }

  /** The statuses visited so far, in rule order: each part holds all the candidates the query has for
      its status after the moves of the parts before it. */
  ghost predicate InRuleOrder(before: Table, parts: seq<seq<Considered>>, now: real) {
    parts == [] ||
    (|parts| <= |RULE_ORDER| && InRuleOrder(before, Init(parts), now) &&
     PartOf(Applied(before, RowsOf(Joined(Init(parts))), now), RuleFor(RULE_ORDER[|parts| - 1]).value, Last(parts), now))
  }

  ghost predicate PartOf(orders: Table, rule: Rule, part: seq<Considered>, now: real) {
    && (forall k | 0 <= k < |part| :: part[k].rule == rule)
    && OldestFirst(orders, rule, now, CANDIDATES_PER_STATUS_PER_TICK, IdsOf(part))
  }

  lemma JoinedMore(parts: seq<seq<Considered>>, part: seq<Considered>)
    ensures Joined(parts + [part]) == Joined(parts) + part
  {
    AppendInit(parts, part);
  }

  lemma OneMorePart(before: Table, parts: seq<seq<Considered>>, part: seq<Considered>, now: real)
    requires InRuleOrder(before, parts, now) && |parts| < |RULE_ORDER|
    requires PartOf(Applied(before, RowsOf(Joined(parts)), now), RuleFor(RULE_ORDER[|parts|]).value, part, now)
    ensures InRuleOrder(before, parts + [part], now)
    ensures Joined(parts + [part]) == Joined(parts) + part
  {
    hide Applied, RowsOf, PartOf, Joined;
    JoinedMore(parts, part);
    AppendInit(parts, part);
  }

  lemma HasRowAppend(rows: seq<HistoryRow>, row: HistoryRow, id: nat)
    ensures HasRow(rows + [row], id) <==> HasRow(rows, id) || row.orderId == id
  {
    var all := rows + [row];
    assert all[|rows|] == row;
    assert forall k | 0 <= k < |rows| :: all[k] == rows[k];
  }

  /** Each order with a row was moved at the tick's time; every other order is as it was. */
  lemma {:induction false} AppliedAt(before: Table, rows: seq<HistoryRow>, now: real, id: nat)
    ensures Applied(before, rows, now).Keys == before.Keys
    ensures id in before && !HasRow(rows, id) ==> Applied(before, rows, now)[id] == before[id]
    ensures id in before && HasRow(rows, id) ==> Applied(before, rows, now)[id].updatedAt == now
    ensures id in before ==> Applied(before, rows, now)[id].createdAt == before[id].createdAt
  {
    if rows != [] {
      AppliedAt(before, Init(rows), now, id);
      InitLast(rows);
      HasRowAppend(Init(rows), Last(rows), id);
    }
  }

  /** A moved order is too young to be found again in the same tick, so a further move is of an order
      that has not moved yet. */
  lemma OneMoreMove(start: Table, rows: seq<HistoryRow>, orders: Table, rule: Rule, id: nat, next: Status, now: real)
    requires IsRule(rule) && Progressed(start, rows, orders, now) && Eligible(orders, id, rule, now)
    requires next == rule.next || (next == CANCELLED && rule.cancel > 0.0)
    ensures Progressed(start, rows + [HistoryRow(id, Some(rule.from), next)],
                       orders[id := orders[id].(status := next, updatedAt := now)], now)
  {
    var row := HistoryRow(id, Some(rule.from), next);
    AppliedAt(start, rows, now, id);
    AppendInit(rows, row);
  }

  /** The orders table and the written part of the history table. */
  class OrderDatabase {
    var orders: Table
    var history: seq<HistoryRow>

    constructor ()
      ensures orders == map[] && history == []
    {
      orders, history := map[], [];
    }

    /** The conditional update and, when it matched, its history row. */
    method Transition(orderId: nat, previous: Status, next: Status, now: real) returns (updated: bool)
      modifies this
      ensures updated == (orderId in old(orders) && old(orders)[orderId].status == previous)
      ensures updated ==>
                && orders == old(orders)[orderId := old(orders)[orderId].(status := next, updatedAt := now)]
                && history == old(history) + [HistoryRow(orderId, Some(previous), next)]
      ensures !updated ==> orders == old(orders) && history == old(history)
    {
      updated := orderId in orders && orders[orderId].status == previous;
      if updated {
        orders := orders[orderId := orders[orderId].(status := next, updatedAt := now)];
        history := history + [HistoryRow(orderId, Some(previous), next)];
      }
    }

    /** What one roll does to one candidate. */
    method Consider(id: nat, rule: Rule, roll: real, now: real) returns (advanced: bool, cancelled: bool)
      requires Eligible(orders, id, rule, now)
      modifies this
      ensures var moved := Decide(rule, roll);
              && (advanced || cancelled <==> moved.Some?) && !(advanced && cancelled)
              && (moved.Some? && moved.value != rule.next ==> cancelled)
              && (cancelled <==> roll < rule.cancel)
              && history == old(history) + RowsOf([Considered(id, rule, roll)])
              && orders == if moved.Some? then old(orders)[id := old(orders)[id].(status := moved.value, updatedAt := now)]
                           else old(orders)
    {
      RowsOfOne(Considered(id, rule, roll));
      advanced, cancelled := false, false;
      if roll < rule.cancel {
        cancelled := Transition(id, rule.from, CANCELLED, now);
      } else if roll < rule.cancel + rule.probability {
        advanced := Transition(id, rule.from, rule.next, now);
      }
    }

    /** The candidates of one status, each with the next roll. */
    method ProgressStatus(rule: Rule, now: real, rolls: nat -> real, rolled: nat, ghost start: Table, ghost rows: seq<HistoryRow>)
      returns (advanced: nat, cancelled: nat, rolled': nat, ghost considered: seq<Considered>)
      requires IsRule(rule) && forall n :: rolls(n) >= 0.0
      requires Progressed(start, rows, orders, now)
      modifies this
      ensures rolled' == rolled + |considered|
      ensures PartOf(old(orders), rule, considered, now) && Rolled(considered, rolls, rolled)
      ensures |considered| <= CANDIDATES_PER_STATUS_PER_TICK
      ensures history == old(history) + RowsOf(considered)
      ensures Progressed(start, rows + RowsOf(considered), orders, now)
      ensures advanced + cancelled == |RowsOf(considered)| && cancelled == Cancelled(considered)
    {
      hide Progressed, RowsOf, Cancelled, OldestFirst, Decide, InTurn, Rolled;
      NothingConsidered(start, rows, now);
      var candidates := FindEligible(orders, rule, now, CANDIDATES_PER_STATUS_PER_TICK);
      advanced, cancelled, considered := 0, 0, [];
      var i := 0;
      CandidatesAreEligible(orders, rule, now, candidates);
      InTurnStart(candidates, rule, rolls, rolled);
      assert history + [] == history;
      while i < |candidates|
        invariant 0 <= i <= |candidates| && |considered| == i
        invariant InTurn(considered, candidates, rule, rolls, rolled)
        invariant history == old(history) + RowsOf(considered)
        invariant Progressed(start, rows + RowsOf(considered), orders, now)
        invariant forall k | i <= k < |candidates| :: Eligible(orders, candidates[k], rule, now)
        invariant advanced + cancelled == |RowsOf(considered)| && cancelled == Cancelled(considered)
      {
        ghost var c := Considered(candidates[i], rule, rolls(rolled + i));
        ConsideredOneMore(start, rows, considered, orders, c, now);
        var a, x := Consider(candidates[i], rule, rolls(rolled + i), now);
        if a {
          advanced := advanced + 1;
        }
        if x {
          cancelled := cancelled + 1;
        }
        RowsOfConcat(considered, [c]);
        ConcatAssociates(old(history), RowsOf(considered), RowsOf([c]));
        InTurnAppend(considered, candidates, rule, rolls, rolled);
        considered := considered + [c];
        i := i + 1;
      }
      InTurnDone(considered, candidates, rule, rolls, rolled);
      rolled' := rolled + i;
    }

    /** One tick: every status in rule order. Each order moves at most once, and only by what its own
        roll decides. */
    method ProgressEligibleOrders(now: real, rolls: nat -> real)
      returns (advanced: nat, cancelled: nat, ghost parts: seq<seq<Considered>>, ghost considered: seq<Considered>)
      requires forall n :: rolls(n) >= 0.0
      modifies this
      ensures |parts| == |RULE_ORDER| && InRuleOrder(old(orders), parts, now) && considered == Joined(parts)
      ensures Rolled(considered, rolls, 0) && forall k | 0 <= k < |considered| :: considered[k].roll == rolls(k)
      ensures history == old(history) + RowsOf(considered)
      ensures Progressed(old(orders), RowsOf(considered), orders, now)
      ensures advanced + cancelled == |RowsOf(considered)| && cancelled == Cancelled(considered)
      ensures |considered| <= 4 * CANDIDATES_PER_STATUS_PER_TICK
    {
      advanced, cancelled, parts, considered := 0, 0, [], [];
      hide LegalRows, Applied, RowsOf, Cancelled, PartOf, Rolled;
      NothingConsidered(orders, [], now);
      NothingRolled(rolls);
      var rolled := 0;
      var r := 0;
      assert history + [] == history;
      while r < |RULE_ORDER|
        invariant 0 <= r <= |RULE_ORDER| && rolled == |considered| <= 15 * r
        invariant |parts| == r && InRuleOrder(old(orders), parts, now) && considered == Joined(parts)
        invariant Rolled(considered, rolls, 0)
        invariant history == old(history) + RowsOf(considered)
        invariant Progressed(old(orders), RowsOf(considered), orders, now)
        invariant advanced + cancelled == |RowsOf(considered)| && cancelled == Cancelled(considered)
      {
        ghost var more;
        var a, c;
        a, c, rolled, more := ProgressStatus(RuleFor(RULE_ORDER[r]).value, now, rolls, rolled, old(orders), RowsOf(considered));
        RowsOfConcat(considered, more);
        RolledConcat(considered, more, rolls);
        ConcatAssociates(old(history), RowsOf(considered), RowsOf(more));
        advanced, cancelled := advanced + a, cancelled + c;
        OneMorePart(old(orders), parts, more, now);
        parts, considered := parts + [more], considered + more;
        r := r + 1;
      }
      RolledInOrder(considered, rolls);
    }
  }

  lemma RolledInOrder(considered: seq<Considered>, rolls: nat -> real)
    requires Rolled(considered, rolls, 0)
    ensures forall k | 0 <= k < |considered| :: considered[k].roll == rolls(k)
  {
    assert forall k | 0 <= k < |considered| :: considered[k].roll == rolls(0 + k);
  }

  function IdsOf(considered: seq<Considered>): (ids: seq<nat>)
    ensures |ids| == |considered| && forall k | 0 <= k < |ids| :: ids[k] == considered[k].orderId
  {
    seq(|considered|, k requires 0 <= k < |considered| => considered[k].orderId)
  }

  /** How many of the considered candidates were cancelled. */
  function Cancelled(considered: seq<Considered>): nat {
    if considered == [] then 0
    else Cancelled(Init(considered)) + if Last(considered).roll < Last(considered).rule.cancel then 1 else 0
  }

  lemma RowsOfOne(c: Considered)
    ensures var moved := Decide(c.rule, c.roll);
            RowsOf([c]) == if moved.Some? then [HistoryRow(c.orderId, Some(c.rule.from), moved.value)] else []
    ensures Cancelled([c]) == if c.roll < c.rule.cancel then 1 else 0
  {
    assert Init([c]) == [];
  }

  lemma {:induction false} RowsOfConcat(a: seq<Considered>, b: seq<Considered>)
    ensures RowsOf(a + b) == RowsOf(a) + RowsOf(b)
    ensures Cancelled(a + b) == Cancelled(a) + Cancelled(b)
  {
    if b == [] {
      assert a + b == a;
    } else {
      assert Init(a + b) == a + Init(b) && Last(a + b) == Last(b);
      RowsOfConcat(a, Init(b));
    }
  }

  /** The first candidates, in order, each with its own roll. */
  ghost predicate InTurn(considered: seq<Considered>, candidates: seq<nat>, rule: Rule, rolls: nat -> real, n: nat) {
    && |considered| <= |candidates|
    && forall k | 0 <= k < |considered| :: considered[k] == Considered(candidates[k], rule, rolls(n + k))
  }

  lemma InTurnStart(candidates: seq<nat>, rule: Rule, rolls: nat -> real, n: nat)
    ensures InTurn([], candidates, rule, rolls, n)
  {
  }

  lemma InTurnAppend(considered: seq<Considered>, candidates: seq<nat>, rule: Rule, rolls: nat -> real, n: nat)
    requires InTurn(considered, candidates, rule, rolls, n) && |considered| < |candidates|
    ensures var i := |considered|; InTurn(considered + [Considered(candidates[i], rule, rolls(n + i))], candidates, rule, rolls, n)
  {
  }

  lemma InTurnDone(considered: seq<Considered>, candidates: seq<nat>, rule: Rule, rolls: nat -> real, n: nat)
    requires InTurn(considered, candidates, rule, rolls, n) && |considered| == |candidates| && IsRule(rule)
    ensures IdsOf(considered) == candidates && Rolled(considered, rolls, n)
    ensures forall k | 0 <= k < |considered| :: considered[k].rule == rule
  {
  }

  lemma NothingRolled(rolls: nat -> real)
    ensures Rolled([], rolls, 0)
  {
  }

  lemma RolledConcat(a: seq<Considered>, b: seq<Considered>, rolls: nat -> real)
    requires Rolled(a, rolls, 0) && Rolled(b, rolls, |a|)
    ensures Rolled(a + b, rolls, 0)
  {
    forall k | 0 <= k < |a + b|
      ensures (a + b)[k].roll == rolls(k) && IsRule((a + b)[k].rule)
    {
      if k >= |a| {
        assert (a + b)[k] == b[k - |a|];
      }
    }
  }

  lemma NothingConsidered(start: Table, rows: seq<HistoryRow>, now: real)
    ensures RowsOf([]) == [] && Cancelled([]) == 0 && rows + RowsOf([]) == rows
    ensures Progressed(start, [], start, now)
  {
  }

  lemma CandidatesAreEligible(orders: Table, rule: Rule, now: real, ids: seq<nat>)
    requires OldestFirst(orders, rule, now, CANDIDATES_PER_STATUS_PER_TICK, ids)
    ensures Distinct(ids) && forall i | 0 <= i < |ids| :: Eligible(orders, ids[i], rule, now)
  {
  }

  /** One more candidate: its roll moves it, or leaves everything as it is. */
  lemma ConsideredOneMore(start: Table, rows: seq<HistoryRow>, considered: seq<Considered>, orders: Table, c: Considered, now: real)
    requires IsRule(c.rule) && c.roll >= 0.0 && Eligible(orders, c.orderId, c.rule, now)
    requires Progressed(start, rows + RowsOf(considered), orders, now)
    ensures var moved := Decide(c.rule, c.roll);
            var after := if moved.Some? then orders[c.orderId := orders[c.orderId].(status := moved.value, updatedAt := now)] else orders;
            Progressed(start, rows + RowsOf(considered + [c]), after, now)
    ensures |RowsOf(considered + [c])| == |RowsOf(considered)| + (if Decide(c.rule, c.roll).Some? then 1 else 0)
    ensures Cancelled(considered + [c]) == Cancelled(considered) + (if c.roll < c.rule.cancel then 1 else 0)
  {
    hide LegalRows, Applied;
    RowsOfConcat(considered, [c]);
    RowsOfOne(c);
    var moved := Decide(c.rule, c.roll);
    assert rows + RowsOf(considered) + RowsOf([c]) == rows + RowsOf(considered + [c]);
    if moved.Some? {
      OneMoreMove(start, rows + RowsOf(considered), orders, c.rule, c.orderId, moved.value, now);
    } else {
      assert rows + RowsOf(considered) + [] == rows + RowsOf(considered);
    }
  }

  // ---- A tick leaves no status and no order out

  /** The statuses with a rule are visited once each, on the way of an order: each is where the rule of the one
      before leads. */
  lemma RuleOrderIsComplete()
    ensures forall status :: RuleFor(status).Some? <==> status in RULE_ORDER
    ensures forall i, j | 0 <= i < j < |RULE_ORDER| :: RULE_ORDER[i] != RULE_ORDER[j]
    ensures forall i | 0 <= i < |RULE_ORDER| - 1 :: RuleFor(RULE_ORDER[i]).value.next == RULE_ORDER[i + 1]
  {
    assert RULE_ORDER[0] == PENDING && RULE_ORDER[1] == PAID && RULE_ORDER[2] == PROCESSING && RULE_ORDER[3] == SHIPPED;
  }

  /** What a roll makes of an order that is old enough, and how old that is. */
  lemma RollDecides(status: Status, roll: real)
    ensures match status
            case PENDING =>
              && RuleFor(status).Some? && RuleFor(status).value.minAge == 60.0
              && Decide(RuleFor(status).value, roll) == if roll < 0.02 then Some(CANCELLED) else if roll < 0.17 then Some(PAID) else None
            case PAID =>
              && RuleFor(status).Some? && RuleFor(status).value.minAge == 120.0
              && Decide(RuleFor(status).value, roll) == if roll < 0.01 then Some(CANCELLED) else if roll < 0.11 then Some(PROCESSING) else None
            case PROCESSING =>
              && RuleFor(status).Some? && RuleFor(status).value.minAge == 180.0
              && Decide(RuleFor(status).value, roll) == if roll < 0.005 then Some(CANCELLED) else if roll < 0.085 then Some(SHIPPED) else None
            case SHIPPED =>
              && RuleFor(status).Some? && RuleFor(status).value.minAge == 300.0
              && (roll >= 0.0 ==> Decide(RuleFor(status).value, roll) == if roll < 0.05 then Some(DELIVERED) else None)
            case _ => RuleFor(status).None?
  {
  }

  /** Each status' candidates are those its query would have found before the tick. */
  ghost predicate FromTheStart(before: Table, parts: seq<seq<Considered>>, now: real) {
    && |parts| <= |RULE_ORDER|
    && forall r | 0 <= r < |parts| :: PartAt(before, parts, r, now)
  }

  ghost predicate PartAt(before: Table, parts: seq<seq<Considered>>, r: nat, now: real)
    requires r < |parts| <= |RULE_ORDER|
  {
    PartOf(before, RuleFor(RULE_ORDER[r]).value, parts[r], now)
  }

  lemma {:induction false} LegalPrefix(before: Table, rows: seq<HistoryRow>, more: seq<HistoryRow>, now: real)
    requires LegalRows(before, rows + more, now)
    ensures LegalRows(before, rows, now)
  {
    if more == [] {
      assert rows + more == rows;
    } else {
      assert Init(rows + more) == rows + Init(more);
      LegalPrefix(before, rows, Init(more), now);
    }
  }

  /** An order that moved was considered under the rule of the status it had before the tick. */
  lemma {:induction false} MovedWas(before: Table, considered: seq<Considered>, now: real, id: nat)
    requires LegalRows(before, RowsOf(considered), now) && HasRow(RowsOf(considered), id)
    ensures id in before && exists k :: 0 <= k < |considered| && considered[k].orderId == id && considered[k].rule.from == before[id].status
  {
    var front, c := Init(considered), Last(considered);
    InitLast(considered);
    RowsOfConcat(front, [c]);
    RowsOfOne(c);
    LegalPrefix(before, RowsOf(front), RowsOf([c]), now);
    if HasRow(RowsOf(front), id) {
      MovedWas(before, front, now, id);
      var k :| 0 <= k < |front| && front[k].orderId == id && front[k].rule.from == before[id].status;
      assert considered[k] == front[k];
    } else {
      HasRowAppend(RowsOf(front), Last(RowsOf(considered)), id);
      assert considered[|considered| - 1].orderId == id;
    }
  }

  /** An order of another status than those moved so far is as it was, and one that moved is too young: the query
      answers as before the tick. */
  lemma SameCandidates(before: Table, considered: seq<Considered>, rule: Rule, part: seq<Considered>, now: real)
    requires LegalRows(before, RowsOf(considered), now) && rule.minAge > 0.0
    requires forall k | 0 <= k < |considered| :: considered[k].rule.from != rule.from
    requires PartOf(Applied(before, RowsOf(considered), now), rule, part, now)
    ensures PartOf(before, rule, part, now)
  {
    hide LegalRows, Applied, RowsOf;
    var orders := Applied(before, RowsOf(considered), now);
    forall id
      ensures Eligible(orders, id, rule, now) <==> Eligible(before, id, rule, now)
      ensures Eligible(before, id, rule, now) ==> orders[id] == before[id]
    {
      AppliedAt(before, RowsOf(considered), now, id);
      if HasRow(RowsOf(considered), id) {
        MovedWas(before, considered, now, id);
      }
    }
  }

  lemma {:induction false} JoinedIs(parts: seq<seq<Considered>>, k: nat) returns (r: nat, j: nat)
    requires k < |Joined(parts)|
    ensures r < |parts| && j < |parts[r]| && Joined(parts)[k] == parts[r][j]
  {
    if k < |Joined(Init(parts))| {
      r, j := JoinedIs(Init(parts), k);
    } else {
      r, j := |parts| - 1, k - |Joined(Init(parts))|;
    }
  }

  lemma {:induction false} JoinedHas(parts: seq<seq<Considered>>, r: nat, j: nat) returns (k: nat)
    requires r < |parts| && j < |parts[r]|
    ensures k < |Joined(parts)| && Joined(parts)[k] == parts[r][j]
  {
    if r == |parts| - 1 {
      k := |Joined(Init(parts))| + j;
    } else {
      k := JoinedHas(Init(parts), r, j);
    }
  }

  lemma {:induction false} AllFromTheStart(before: Table, parts: seq<seq<Considered>>, now: real)
    requires InRuleOrder(before, parts, now) && LegalRows(before, RowsOf(Joined(parts)), now)
    ensures FromTheStart(before, parts, now)
  {
    hide LegalRows, RowsOf, OldestFirst;
    if parts != [] {
      var front, last := Init(parts), Last(parts);
      RowsOfConcat(Joined(front), last);
      LegalPrefix(before, RowsOf(Joined(front)), RowsOf(last), now);
      AllFromTheStart(before, front, now);
      RuleOrderIsComplete();
      var rule := RuleFor(RULE_ORDER[|front|]).value;
      forall k | 0 <= k < |Joined(front)|
        ensures Joined(front)[k].rule.from != rule.from
      {
        var r, j := JoinedIs(front, k);
        assert PartAt(before, front, r, now);
      }
      SameCandidates(before, Joined(front), rule, last, now);
      forall r | 0 <= r < |parts|
        ensures PartAt(before, parts, r, now)
      {
        if r < |front| {
          assert PartAt(before, front, r, now);
        }
      }
    }
  }

  /** No order is considered twice. */
  lemma {:induction false} ConsideredOnce(before: Table, parts: seq<seq<Considered>>, now: real)
    requires FromTheStart(before, parts, now)
    ensures forall k, l | 0 <= k < l < |Joined(parts)| :: Joined(parts)[k].orderId != Joined(parts)[l].orderId
  {
    if parts != [] {
      var front, last := Init(parts), Last(parts);
      forall r | 0 <= r < |front|
        ensures PartAt(before, front, r, now)
      {
        assert PartAt(before, parts, r, now);
      }
      ConsideredOnce(before, front, now);
      RuleOrderIsComplete();
      assert PartAt(before, parts, |front|, now);
      forall k, l | 0 <= k < l < |Joined(parts)|
        ensures Joined(parts)[k].orderId != Joined(parts)[l].orderId
      {
        var j := l - |Joined(front)|;
        if j >= 0 {
          assert Eligible(before, IdsOf(last)[j], RuleFor(RULE_ORDER[|front|]).value, now);
          if k < |Joined(front)| {
            var r, i := JoinedIs(front, k);
            assert PartAt(before, front, r, now);
            assert Eligible(before, IdsOf(front[r])[i], RuleFor(RULE_ORDER[r]).value, now);
          } else {
            assert IdsOf(last)[k - |Joined(front)|] != IdsOf(last)[j];
          }
        }
      }
    }
  }

  /** Fifteen orders of the same status that were updated no later, all of them considered. */
  ghost predicate FifteenOlder(before: Table, considered: seq<Considered>, id: nat, ids: seq<nat>)
    requires id in before
  {
    && |ids| == 15 && Distinct(ids) && id !in ids
    && forall i | 0 <= i < 15 ::
         && ids[i] in before && before[ids[i]].status == before[id].status && before[ids[i]].updatedAt <= before[id].updatedAt
         && exists k :: 0 <= k < |considered| && considered[k].orderId == ids[i]
  }

  /** A tick considers every order that has a rule to follow and is old enough for it, unless fifteen of the same
      status that are as old or older came first; and it considers no other order. */
  lemma TickConsiders(before: Table, parts: seq<seq<Considered>>, now: real, id: nat)
    requires |parts| == |RULE_ORDER| && InRuleOrder(before, parts, now) && LegalRows(before, RowsOf(Joined(parts)), now)
    requires id in before
    ensures var o := before[id];
            var seen := exists k :: 0 <= k < |Joined(parts)| && Joined(parts)[k].orderId == id;
            && (RuleFor(o.status).Some? && o.updatedAt + RuleFor(o.status).value.minAge <= now ==>
                  seen || exists ids :: FifteenOlder(before, Joined(parts), id, ids))
            && (seen ==> RuleFor(o.status).Some? && o.updatedAt + RuleFor(o.status).value.minAge <= now)
  {
    hide LegalRows, RowsOf;
    AllFromTheStart(before, parts, now);
    RuleOrderIsComplete();
    var o := before[id];
    if k :| 0 <= k < |Joined(parts)| && Joined(parts)[k].orderId == id {
      var r, j := JoinedIs(parts, k);
      assert PartAt(before, parts, r, now);
      assert Eligible(before, IdsOf(parts[r])[j], RuleFor(RULE_ORDER[r]).value, now);
    } else if RuleFor(o.status).Some? && o.updatedAt + RuleFor(o.status).value.minAge <= now {
      var r :| 0 <= r < |RULE_ORDER| && RULE_ORDER[r] == o.status;
      PassedOver(before, parts, now, id, r);
    }
  }

  lemma PassedOver(before: Table, parts: seq<seq<Considered>>, now: real, id: nat, r: nat)
    requires FromTheStart(before, parts, now) && r < |parts|
    requires id in before && before[id].status == RULE_ORDER[r] && Eligible(before, id, RuleFor(RULE_ORDER[r]).value, now)
    requires forall k | 0 <= k < |Joined(parts)| :: Joined(parts)[k].orderId != id
    ensures FifteenOlder(before, Joined(parts), id, IdsOf(parts[r]))
  {
    var ids := IdsOf(parts[r]);
    assert PartAt(before, parts, r, now);
    forall j | 0 <= j < |ids|
      ensures ids[j] != id && exists k :: 0 <= k < |Joined(parts)| && Joined(parts)[k].orderId == ids[j]
    {
      var k := JoinedHas(parts, r, j);
    }
    assert forall j | 0 <= j < |ids| :: Eligible(before, ids[j], RuleFor(RULE_ORDER[r]).value, now);
  }

  /** A considered order is afterwards what its own roll decides, and every other order is as it was. */
  lemma TickMoves(before: Table, parts: seq<seq<Considered>>, now: real, id: nat)
    requires |parts| == |RULE_ORDER| && InRuleOrder(before, parts, now) && LegalRows(before, RowsOf(Joined(parts)), now)
    requires id in before
    ensures var after := Applied(before, RowsOf(Joined(parts)), now);
            && after.Keys == before.Keys
            && (forall k | 0 <= k < |Joined(parts)| && Joined(parts)[k].orderId == id ::
                  && Joined(parts)[k].rule == RuleFor(before[id].status).GetOr(Joined(parts)[k].rule)
                  && after[id] == match Decide(Joined(parts)[k].rule, Joined(parts)[k].roll)
                                  case Some(next) => Order(next, before[id].createdAt, now)
                                  case None => before[id])
            && ((forall k | 0 <= k < |Joined(parts)| :: Joined(parts)[k].orderId != id) ==> after[id] == before[id])
  {
    hide LegalRows, RowsOf, Applied, Decide;
    AllFromTheStart(before, parts, now);
    ConsideredOnce(before, parts, now);
    OutcomeOf(before, Joined(parts), now, id);
    forall k | 0 <= k < |Joined(parts)| && Joined(parts)[k].orderId == id
      ensures Joined(parts)[k].rule == RuleFor(before[id].status).GetOr(Joined(parts)[k].rule)
    {
      var r, j := JoinedIs(parts, k);
      assert PartAt(before, parts, r, now);
      assert Eligible(before, IdsOf(parts[r])[j], RuleFor(RULE_ORDER[r]).value, now);
      RuleOrderIsComplete();
    }
  }

  lemma {:induction false} OutcomeOf(before: Table, considered: seq<Considered>, now: real, id: nat)
    requires id in before
    requires forall k, l | 0 <= k < l < |considered| :: considered[k].orderId != considered[l].orderId
    ensures var after := Applied(before, RowsOf(considered), now);
            && after.Keys == before.Keys
            && (forall k | 0 <= k < |considered| && considered[k].orderId == id ::
                  after[id] == match Decide(considered[k].rule, considered[k].roll)
                               case Some(next) => Order(next, before[id].createdAt, now)
                               case None => before[id])
            && ((forall k | 0 <= k < |considered| :: considered[k].orderId != id) ==> after[id] == before[id])
  {
    hide Decide;
    if considered != [] {
      var front, c := Init(considered), Last(considered);
      InitLast(considered);
      OutcomeOf(before, front, now, id);
      var moved := Decide(c.rule, c.roll);
      if moved.Some? {
        AppendInit(RowsOf(front), HistoryRow(c.orderId, Some(c.rule.from), moved.value));
      } else {
        assert RowsOf(front) + [] == RowsOf(front);
      }
      if c.orderId == id {
        assert forall k | 0 <= k < |front| :: front[k] == considered[k];
      }
    }
  }
}
