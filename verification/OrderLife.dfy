/** Orders over whole runs of the simulator: created one by one, their first history row buffered, the
    buffer flushed now and then, and once per batch a tick that moves some of them on. */
module OrderLife {
  import opened Common
  import opened Orders

  /** recording: an order whose row is inserted and whose first history row is not buffered yet. */
  datatype World = World(orders: Table, written: seq<HistoryRow>, buffered: seq<HistoryRow>, recording: Option<nat>)

  datatype Step =
    | Insert(id: nat, at: real)
    | Record
    | Flush
    | Tick(rows: seq<HistoryRow>, now: real)

  /** A tick comes after the cycles and after the final flush of the batch. */
  ghost predicate Possible(w: World, step: Step) {
    match step
    case Insert(id, _) => id !in w.orders && w.recording.None?
    case Record => w.recording.Some?
    case Flush => true
    case Tick(rows, now) => w.recording.None? && w.buffered == [] && LegalRows(w.orders, rows, now)
  }

  function After(w: World, step: Step): World {
    match step
    case Insert(id, at) => w.(orders := w.orders[id := Order(PENDING, at, at)], recording := Some(id))
    case Record =>
      if w.recording.None? then w
      else w.(buffered := w.buffered + [HistoryRow(w.recording.value, None, PENDING)], recording := None)
    case Flush => w.(written := w.written + w.buffered, buffered := [])
    case Tick(rows, now) => w.(orders := Applied(w.orders, rows, now), written := w.written + rows)
  }

  ghost predicate ValidRun(w: World, run: seq<Step>) {
    run == [] || (ValidRun(w, Init(run)) && Possible(End(w, Init(run)), Last(run)))
  }

  function End(w: World, run: seq<Step>): World {
    if run == [] then w else After(End(w, Init(run)), Last(run))
  }

  // ---- Histories

  /** The history of one order, in table order. */
  function HistoryOf(rows: seq<HistoryRow>, id: nat): seq<HistoryRow> {
    if rows == [] then []
    else if Last(rows).orderId == id then HistoryOf(Init(rows), id) + [Last(rows)]
    else HistoryOf(Init(rows), id)
  }

  lemma {:induction false} HistoryConcat(a: seq<HistoryRow>, b: seq<HistoryRow>, id: nat)
    ensures HistoryOf(a + b, id) == HistoryOf(a, id) + HistoryOf(b, id)
  {
    if b == [] {
      assert a + b == a;
    } else {
      assert Init(a + b) == a + Init(b) && Last(a + b) == Last(b);
      HistoryConcat(a, Init(b), id);
    }
  }

  predicate Edge(from: Status, to: Status) {
    RuleFor(from).Some? && (to == RuleFor(from).value.next || (to == CANCELLED && RuleFor(from).value.cancel > 0.0))
  }

  /** A linked path from nothing over PENDING to the given status. */
  predicate PathTo(rows: seq<HistoryRow>, status: Status) {
    && rows != [] && Last(rows).current == status
    && if |rows| == 1 then Last(rows).previous == None && status == PENDING
       else Last(rows).previous.Some? && Edge(Last(rows).previous.value, status) && PathTo(Init(rows), Last(rows).previous.value)
  }

  /** How many transitions lead to a status; a cancelled order has one to three behind it. */
  predicate FitsLength(status: Status, transitions: int) {
    match status
    case PENDING => transitions == 0
    case PAID => transitions == 1
    case PROCESSING => transitions == 2
    case SHIPPED => transitions == 3
    case DELIVERED => transitions == 4
    case CANCELLED => 1 <= transitions <= 3
  }

  lemma {:induction false} PathLength(rows: seq<HistoryRow>, status: Status)
    requires PathTo(rows, status)
    ensures FitsLength(status, |rows| - 1)
  {
    if |rows| > 1 {
      PathLength(Init(rows), Last(rows).previous.value);
    }
  }

  /** The least time between creation and the last update, by status. */
  function LeastAge(status: Status): real {
    match status
    case PENDING => 0.0
    case PAID => 60.0
    case PROCESSING => 180.0
    case SHIPPED => 360.0
    case DELIVERED => 660.0
    case CANCELLED => 60.0
  }

  predicate OldEnough(o: Order) {
    o.updatedAt - o.createdAt >= LeastAge(o.status)
  }

  // ---- The invariant

  ghost predicate OrderOk(w: World, id: nat) {
    var rows := HistoryOf(w.written + w.buffered, id);
    if id !in w.orders then rows == [] && w.recording != Some(id)
    else
      && OldEnough(w.orders[id])
      && if w.recording == Some(id) then rows == [] && w.orders[id].status == PENDING
         else PathTo(rows, w.orders[id].status)
  }

  const EMPTY: World := World(map[], [], [], None)

  /** What a tick does to one order: nothing, or one legal step recorded by one row. */
  lemma {:induction false} TickOfOne(before: Table, rows: seq<HistoryRow>, now: real, id: nat)
    requires LegalRows(before, rows, now)
    ensures Applied(before, rows, now).Keys == before.Keys
    ensures HistoryOf(rows, id) == [] <==> !HasRow(rows, id)
    ensures HistoryOf(rows, id) == [] && id in before ==> Applied(before, rows, now)[id] == before[id]
    ensures HistoryOf(rows, id) != [] ==> id in before
    ensures HistoryOf(rows, id) != [] ==>
              var row := HistoryRow(id, Some(before[id].status), Applied(before, rows, now)[id].status);
              && HistoryOf(rows, id) == [row] && Edge(before[id].status, row.current)
              && Applied(before, rows, now)[id] == Order(row.current, before[id].createdAt, now)
              && now - before[id].updatedAt >= RuleFor(before[id].status).value.minAge
  {
    AppliedAt(before, rows, now, id);
    if rows != [] {
      TickOfOne(before, Init(rows), now, id);
      AppliedAt(before, Init(rows), now, id);
      InitLast(rows);
      HasRowAppend(Init(rows), Last(rows), id);
    }
  }

  lemma StepOnOne(w: World, step: Step, id: nat)
    requires OrderOk(w, id) && Possible(w, step)
    ensures OrderOk(After(w, step), id)
  {
    var w' := After(w, step);
    match step {
      case Insert(_, _) =>
      case Record =>
        ConcatAssociates(w.written, w.buffered, [HistoryRow(w.recording.value, None, PENDING)]);
        AppendInit(w.written + w.buffered, HistoryRow(w.recording.value, None, PENDING));
      case Flush =>
        assert w'.written + [] == w.written + w.buffered;
      case Tick(rows, now) =>
        assert w.written + [] == w.written && w'.written + [] == w'.written;
        HistoryConcat(w.written, rows, id);
        TickOfOne(w.orders, rows, now, id);
        if HistoryOf(rows, id) != [] {
          AppendInit(HistoryOf(w.written, id), HistoryOf(rows, id)[0]);
        } else {
          assert HistoryOf(w.written, id) + [] == HistoryOf(w.written, id);
        }
    }
  }

  lemma {:induction false} RunKeepsOk(w: World, run: seq<Step>, id: nat)
    requires OrderOk(w, id) && ValidRun(w, run)
    ensures OrderOk(End(w, run), id)
  {
    if run != [] {
      RunKeepsOk(w, Init(run), id);
      StepOnOne(End(w, Init(run)), Last(run), id);
    }
  }

  /** After any run from an empty database every order's history, written and still buffered, is a
      linked path from nothing to its current status, of at most four transitions; and a delivered
      order was last updated at least 660 seconds after it was created. */
  lemma EveryOrderLivesItsLife(run: seq<Step>, id: nat)
    requires ValidRun(EMPTY, run)
    ensures var w := End(EMPTY, run);
            id in w.orders && w.recording != Some(id) ==>
              && PathTo(HistoryOf(w.written + w.buffered, id), w.orders[id].status)
              && FitsLength(w.orders[id].status, |HistoryOf(w.written + w.buffered, id)| - 1)
              && (w.orders[id].status == DELIVERED ==> w.orders[id].updatedAt >= w.orders[id].createdAt + 660.0)
  {
    assert OrderOk(EMPTY, id) by {
      assert EMPTY.written + EMPTY.buffered == [];
    }
    RunKeepsOk(EMPTY, run, id);
    var w := End(EMPTY, run);
    if id in w.orders && w.recording != Some(id) {
      PathLength(HistoryOf(w.written + w.buffered, id), w.orders[id].status);
    }
  }

  /** DELIVERED and CANCELLED are final: no later step of any run changes such an order or adds to its history. */
  lemma {:induction false} FinalIsForever(w: World, run: seq<Step>, id: nat)
    requires OrderOk(w, id) && ValidRun(w, run) && w.recording != Some(id)
    requires id in w.orders && (w.orders[id].status == DELIVERED || w.orders[id].status == CANCELLED)
    ensures var w' := End(w, run);
            && id in w'.orders && w'.orders[id] == w.orders[id] && w'.recording != Some(id)
            && HistoryOf(w'.written + w'.buffered, id) == HistoryOf(w.written + w.buffered, id)
  {
    if run != [] {
      FinalIsForever(w, Init(run), id);
      var v, step := End(w, Init(run)), Last(run);
      match step {
        case Insert(_, _) =>
        case Record =>
          ConcatAssociates(v.written, v.buffered, [HistoryRow(v.recording.value, None, PENDING)]);
          AppendInit(v.written + v.buffered, HistoryRow(v.recording.value, None, PENDING));
        case Flush =>
          assert After(v, step).written + [] == v.written + v.buffered;
        case Tick(rows, now) =>
          TickOfOne(v.orders, rows, now, id);
          HistoryConcat(v.written, rows, id);
          assert v.written + [] == v.written && v.written + rows + [] == v.written + rows;
          assert HistoryOf(v.written, id) + [] == HistoryOf(v.written, id);
      }
    }
  }

  /** Within one tick each order moves at most once, whatever the candidates and the rolls. */
  lemma AtMostOneMovePerTick(w: World, rows: seq<HistoryRow>, now: real, id: nat)
    requires Possible(w, Tick(rows, now))
    ensures After(w, Tick(rows, now)).orders.Keys == w.orders.Keys
    ensures |HistoryOf(After(w, Tick(rows, now)).written, id)| <= |HistoryOf(w.written, id)| + 1
    ensures id in w.orders && After(w, Tick(rows, now)).orders[id].status != w.orders[id].status ==>
              |HistoryOf(After(w, Tick(rows, now)).written, id)| == |HistoryOf(w.written, id)| + 1
  {
    HistoryConcat(w.written, rows, id);
    TickOfOne(w.orders, rows, now, id);
    AppliedAt(w.orders, rows, now, id);
  }

  // ---- The bounds are met

  lemma OneStepMore(w: World, run: seq<Step>, v: World, step: Step)
    requires ValidRun(w, run) && End(w, run) == v && Possible(v, step)
    ensures ValidRun(w, run + [step]) && End(w, run + [step]) == After(v, step)
  {
    AppendInit(run, step);
  }

  /** A tick that moves one order, the only one there is. */
  lemma TickOne(run: seq<Step>, w: World, id: nat, o: Order, next: Status, now: real) returns (step: Step, v: World)
    requires ValidRun(EMPTY, run) && End(EMPTY, run) == w
    requires w.orders == map[id := o] && w.buffered == [] && w.recording.None?
    requires RuleFor(o.status).Some? && next == RuleFor(o.status).value.next && now >= o.updatedAt + RuleFor(o.status).value.minAge
    ensures ValidRun(EMPTY, run + [step]) && End(EMPTY, run + [step]) == v
    ensures v.orders == map[id := Order(next, o.createdAt, now)] && v.buffered == [] && v.recording.None?
  {
    var row := HistoryRow(id, Some(o.status), next);
    step := Tick([row], now);
    v := After(w, step);
    assert Init([row]) == [] && Last([row]) == row;
    assert LegalRows(w.orders, [], now) && !HasRow([], id);
    assert LegalMove(w.orders, row, now);
    assert Applied(w.orders, [], now) == w.orders;
    OneStepMore(EMPTY, run, w, step);
  }

  /** An order can be delivered, and after 660 seconds at the earliest it can be so exactly then. */
  lemma DeliveredInTime(id: nat, at: real) returns (run: seq<Step>)
    ensures ValidRun(EMPTY, run)
    ensures End(EMPTY, run).orders == map[id := Order(DELIVERED, at, at + 660.0)] && End(EMPTY, run).recording.None?
  {
    hide ValidRun, End;
    var w1, w2 := After(EMPTY, Insert(id, at)), After(After(EMPTY, Insert(id, at)), Record);
    var w3 := After(w2, Flush);
    NothingYet();
    OneStepMore(EMPTY, [], EMPTY, Insert(id, at));
    OneStepMore(EMPTY, [] + [Insert(id, at)], w1, Record);
    OneStepMore(EMPTY, [] + [Insert(id, at)] + [Record], w2, Flush);
    run := [] + [Insert(id, at)] + [Record] + [Flush];
    var step, w := TickOne(run, w3, id, Order(PENDING, at, at), PAID, at + 60.0);
    run := run + [step];
    step, w := TickOne(run, w, id, Order(PAID, at, at + 60.0), PROCESSING, at + 180.0);
    run := run + [step];
    step, w := TickOne(run, w, id, Order(PROCESSING, at, at + 180.0), SHIPPED, at + 360.0);
    run := run + [step];
    step, w := TickOne(run, w, id, Order(SHIPPED, at, at + 360.0), DELIVERED, at + 660.0);
    run := run + [step];
  }

  lemma NothingYet()
    ensures ValidRun(EMPTY, []) && End(EMPTY, []) == EMPTY
  {
  }
}
