/** The order in which the daemon leases queue items (bin/run_daemon.py, _pop_pending). */
module RoundRobin {
  import opened Python

  /** waitsSince is coalesce(last_leased_at, created_at). */
  datatype Entry = Entry(priority: int, waitsSince: int)

  /** The pending items, and the leased one with the time its lease began. clock is the next timestamp. */
  datatype Queue = Queue(pending: map<nat, Entry>, leased: map<nat, Entry>, clock: int)

  /** a is served no later than b: higher priority first, then the longer wait. */
  predicate ServedBefore(a: Entry, b: Entry) {
    a.priority > b.priority || (a.priority == b.priority && a.waitsSince <= b.waitsSince)
  }

  ghost predicate IsNext(pending: map<nat, Entry>, id: nat) {
    id in pending && forall other :: other in pending ==> ServedBefore(pending[id], pending[other])
  }

  datatype Event =
    | Lease(id: nat)
    | Requeue(id: nat)
    | Finish(id: nat)
    | Enqueue(items: map<nat, int>)
    | Cancel(id: nat)
    | SetPriority(id: nat, priority: int)

  ghost predicate Enabled(q: Queue, e: Event) {
    match e
    case Lease(id) => IsNext(q.pending, id) && q.leased == map[]
    case Requeue(id) => id in q.leased && id !in q.pending
    case Finish(id) => id in q.leased
    case Enqueue(items) => forall id :: id in items ==> id !in q.pending && id !in q.leased
    case Cancel(id) => true
    case SetPriority(id, priority) => true
  }

  /** patch_queue changes the priority of an item in whatever status it is, and nothing else about it. */
  function Reprioritised(items: map<nat, Entry>, id: nat, priority: int): map<nat, Entry> {
    if id in items then items[id := Entry(priority, items[id].waitsSince)] else items
  }

  /** Every event happens at its own time: the clock is strictly increasing. One refill may enqueue several
      items at the same time. */
  function Step(q: Queue, e: Event): Queue {
    match e
    case Lease(id) =>
      if id in q.pending then
        Queue(q.pending - {id}, q.leased[id := Entry(q.pending[id].priority, q.clock)], q.clock + 1)
      else q
    case Requeue(id) =>
      if id in q.leased then Queue(q.pending[id := q.leased[id]], q.leased - {id}, q.clock + 1) else q
    case Finish(id) => Queue(q.pending, q.leased - {id}, q.clock + 1)
    case Enqueue(items) =>
      Queue(q.pending + (map id | id in items :: Entry(items[id], q.clock)), q.leased, q.clock + 1)
    case Cancel(id) => Queue(q.pending - {id}, q.leased, q.clock + 1)
    case SetPriority(id, priority) => Queue(Reprioritised(q.pending, id, priority), Reprioritised(q.leased, id, priority), q.clock + 1)
  }

  /** All recorded times are in the past, and no item is both pending and leased. */
  predicate WellFormed(q: Queue) {
    && (forall id :: id in q.pending ==> q.pending[id].waitsSince < q.clock && id !in q.leased)
    && (forall id :: id in q.leased ==> q.leased[id].waitsSince < q.clock)
  }

  predicate GoesFirst(a: Entry, x: Entry) {
    a.priority == x.priority && a.waitsSince <= x.waitsSince
  }

  /** Items of x's priority that may be served before it: pending ones that have waited as long, and the one on
      lease if its lease began no later than x started waiting, since it keeps that time when it is requeued. */
  function Ahead(q: Queue, x: nat): set<nat>
    requires x in q.pending
  {
    (set id | id in q.pending.Keys && id != x && GoesFirst(q.pending[id], q.pending[x])) +
    (set id | id in q.leased.Keys && id != x && GoesFirst(q.leased[id], q.pending[x]))
  }

  ghost predicate NoneHigher(q: Queue, x: nat)
    requires x in q.pending
  {
    forall id :: id in q.pending ==> q.pending[id].priority <= q.pending[x].priority
  }

  /** x is leased or cancelled, or is given a priority itself. */
  predicate Concerns(e: Event, x: nat) {
    e == Lease(x) || e == Cancel(x) || (e.SetPriority? && e.id == x)
  }

  /** A run in which x keeps waiting with its priority, and nothing of higher priority is pending when a lease is
      given. */
  ghost predicate Waits(q: Queue, x: nat, events: seq<Event>)
    decreases |events|
  {
    x in q.pending &&
    (events != [] ==>
       && Enabled(q, events[0])
       && !Concerns(events[0], x)
       && (events[0].Lease? ==> NoneHigher(q, x))
       && Waits(Step(q, events[0]), x, events[1..]))
  }

  function Leases(events: seq<Event>): nat {
    if events == [] then 0 else (if events[0].Lease? then 1 else 0) + Leases(events[1..])
  }

  /** e gives an item this priority. */
  predicate MovesTo(e: Event, priority: int) {
    e.SetPriority? && e.priority == priority
  }

  function Moves(events: seq<Event>, priority: int): nat {
    if events == [] then 0 else (if MovesTo(events[0], priority) then 1 else 0) + Moves(events[1..], priority)
  }

  /** Nothing new gets ahead of x but an item that is given x's priority, and another item's lease takes that
      item out. */
  lemma StepShrinksAhead(q: Queue, x: nat, e: Event)
    requires x in q.pending && WellFormed(q)
    requires Enabled(q, e) && !Concerns(e, x)
    requires e.Lease? ==> NoneHigher(q, x)
    ensures x in Step(q, e).pending && Step(q, e).pending[x] == q.pending[x] && WellFormed(Step(q, e))
    ensures Ahead(Step(q, e), x) <= Ahead(q, x) + if MovesTo(e, q.pending[x].priority) then {e.id} else {}
    ensures e.Lease? ==> e.id in Ahead(q, x) && e.id !in Ahead(Step(q, e), x)
  {
    var r := Step(q, e);
    if e.Lease? {
      assert ServedBefore(q.pending[e.id], q.pending[x]);
    }
    assert r.pending[x] == q.pending[x];
    forall id | id in Ahead(r, x) && !(MovesTo(e, q.pending[x].priority) && id == e.id) ensures id in Ahead(q, x) {
      assert id in r.pending ==> r.pending[id].waitsSince <= q.pending[x].waitsSince < q.clock;
      assert id in r.leased ==> r.leased[id].waitsSince <= q.pending[x].waitsSince < q.clock;
    }
  }

  /** While x waits, at most as many leases are given as items were ahead of it or were given its priority
      meanwhile. */
  lemma {:induction false} BoundedWait(q: Queue, x: nat, events: seq<Event>)
    requires WellFormed(q) && x in q.pending
    requires Waits(q, x, events)
    ensures Leases(events) <= |Ahead(q, x)| + Moves(events, q.pending[x].priority)
    decreases |events|
  {
    if events != [] {
      var e := events[0];
      StepShrinksAhead(q, x, e);
      BoundedWait(Step(q, e), x, events[1..]);
      var before, after := Ahead(q, x), Ahead(Step(q, e), x);
      if e.Lease? {
        SubsetSize(after, before - {e.id});
      } else if MovesTo(e, q.pending[x].priority) {
        SubsetSize(after - {e.id}, before);
      } else {
        SubsetSize(after, before);
      }
    }
  }

  lemma {:induction false} SubsetSize(a: set<nat>, b: set<nat>)
    requires a <= b
    ensures |a| <= |b|
  {
    if a != {} {
      var x :| x in a;
      SubsetSize(a - {x}, b - {x});
    }
  }

  /** Round-robin fairness: of any m + 1 leases given while x is pending, where no more than m items of its
      priority were ahead of it or given that priority meanwhile and none of higher priority pends, one is x's,
      whatever else is requeued, enqueued, cancelled or moved. */
  lemma LeasedAfterAtMostAhead(q: Queue, x: nat, events: seq<Event>)
    requires WellFormed(q) && x in q.pending
    requires Leases(events) > |Ahead(q, x)| + Moves(events, q.pending[x].priority)
    ensures !Waits(q, x, events)
  {
    if Waits(q, x, events) {
      BoundedWait(q, x, events);
    }
  }

  /** The moves have to be counted: with nothing ahead of x, an older item of lower priority that is raised to
      x's is leased before it. */
  lemma RaisedItemGoesFirst(low: int, high: int, older: int, newer: int, other: nat, x: nat)
    requires low < high && older < newer && other != x
    ensures var q := Queue(map[other := Entry(low, older), x := Entry(high, newer)], map[], newer + 1);
            && WellFormed(q) && Ahead(q, x) == {}
            && Waits(q, x, [SetPriority(other, high), Lease(other)]) && Leases([SetPriority(other, high), Lease(other)]) == 1
  {
    var q := Queue(map[other := Entry(low, older), x := Entry(high, newer)], map[], newer + 1);
    var r := Step(q, SetPriority(other, high));
    assert IsNext(r.pending, other) && NoneHigher(r, x);
    var l := Step(r, Lease(other));
    assert [SetPriority(other, high), Lease(other)][1..] == [Lease(other)] && [Lease(other)][1..] == [];
    assert Waits(l, x, []);
    assert Waits(r, x, [Lease(other)]);
    assert Leases([Lease(other)]) == 1;
  }

  /** The item on lease has to be counted: an item enqueued meanwhile, with nothing pending before it, still
      waits for one more lease of the item that was on lease when it arrived. */
  lemma ItemOnLeaseGoesFirst(priority: int, since: int, arrives: int, on: nat, x: nat)
    requires since < arrives && on != x
    ensures var q := Step(Queue(map[], map[on := Entry(priority, since)], arrives), Enqueue(map[x := priority]));
            && WellFormed(q) && x in q.pending
            && (forall id :: id in q.pending ==> id == x)
            && Waits(q, x, [Requeue(on), Lease(on)]) && Leases([Requeue(on), Lease(on)]) == 1
            && Ahead(q, x) == {on}
  {
    var q := Step(Queue(map[], map[on := Entry(priority, since)], arrives), Enqueue(map[x := priority]));
    var r := Step(q, Requeue(on));
    var l := Step(r, Lease(on));
    assert IsNext(r.pending, on) && NoneHigher(r, x);
    assert x in l.pending;
    assert [Requeue(on), Lease(on)][1..] == [Lease(on)] && [Lease(on)][1..] == [];
    assert Waits(r, x, [Lease(on)]);
    assert Leases([Lease(on)]) == 1;
  }

  // ---- items that are over

  ghost predicate IsRun(q: Queue, events: seq<Event>)
    decreases |events|
  {
    events != [] ==> Enabled(q, events[0]) && IsRun(Step(q, events[0]), events[1..])
  }

  function After(q: Queue, events: seq<Event>): Queue
    decreases |events|
  {
    if events == [] then q else After(Step(q, events[0]), events[1..])
  }

  /** The daemon works on one item at a time. */
  lemma {:induction false} OneLeaseAtATime(q: Queue, events: seq<Event>, a: nat, b: nat)
    requires IsRun(q, events) && forall c, d :: c in q.leased && d in q.leased ==> c == d
    requires a in After(q, events).leased && b in After(q, events).leased
    ensures a == b
    decreases |events|
  {
    if events != [] { OneLeaseAtATime(Step(q, events[0]), events[1..], a, b); }
  }

  predicate Enqueues(e: Event, id: nat) {
    e.Enqueue? && id in e.items
  }

  /** An item that is neither pending nor on lease is not leased again unless it is enqueued anew. */
  lemma {:induction false} GoneForGood(q: Queue, id: nat, events: seq<Event>)
    requires id !in q.pending && id !in q.leased && IsRun(q, events)
    requires forall i :: 0 <= i < |events| ==> !Enqueues(events[i], id)
    ensures forall i :: 0 <= i < |events| ==> events[i] != Lease(id)
    decreases |events|
  {
    if events != [] {
      var e, rest := events[0], events[1..];
      assert !Enqueues(e, id);
      assert forall i :: 0 <= i < |rest| ==> rest[i] == events[i + 1];
      GoneForGood(Step(q, e), id, rest);
    }
  }

  /** So a cancelled or finished item is over. */
  lemma CancelledOrFinishedIsOver(q: Queue, id: nat, e: Event, events: seq<Event>)
    requires WellFormed(q) && Enabled(q, e) && (e == Cancel(id) || e == Finish(id)) && (e.Cancel? ==> id !in q.leased)
    requires IsRun(Step(q, e), events) && forall i :: 0 <= i < |events| ==> !Enqueues(events[i], id)
    ensures forall i :: 0 <= i < |events| ==> events[i] != Lease(id)
  {
    GoneForGood(Step(q, e), id, events);
  }

  // ---- the query

  datatype QueueRow = QueueRow(id: nat, pending: bool, priority: int, createdAt: int, lastLeasedAt: Option<int>)

  function EntryOf(row: QueueRow): Entry {
    Entry(row.priority, if row.lastLeasedAt.Some? then row.lastLeasedAt.value else row.createdAt)
  }

  /** The order of the query: priority first; then a row waits since its last lease, or since its creation when it was
      never leased. */
  lemma QueryOrderExactly(a: QueueRow, b: QueueRow)
    ensures ServedBefore(EntryOf(a), EntryOf(b)) <==>
            || a.priority > b.priority
            || (a.priority == b.priority &&
                match (a.lastLeasedAt, b.lastLeasedAt)
                case (Some(s), Some(t)) => s <= t
                case (Some(s), None) => s <= b.createdAt
                case (None, Some(t)) => a.createdAt <= t
                case (None, None) => a.createdAt <= b.createdAt)
  {}

  /** _pop_pending: the first pending row by priority, then by the time it has waited since. */
  method PopPending(rows: seq<QueueRow>) returns (best: Option<nat>)
    ensures best.None? <==> forall i :: 0 <= i < |rows| ==> !rows[i].pending
    ensures best.Some? ==> best.value < |rows| && rows[best.value].pending
    ensures best.Some? ==> forall i :: 0 <= i < |rows| && rows[i].pending ==> ServedBefore(EntryOf(rows[best.value]), EntryOf(rows[i]))
  {
    best := None;
    for i := 0 to |rows|
      invariant best.None? <==> forall j :: 0 <= j < i ==> !rows[j].pending
      invariant best.Some? ==> best.value < i && rows[best.value].pending
      invariant best.Some? ==> forall j :: 0 <= j < i && rows[j].pending ==> ServedBefore(EntryOf(rows[best.value]), EntryOf(rows[j]))
    {
      if rows[i].pending && (best.None? || !ServedBefore(EntryOf(rows[best.value]), EntryOf(rows[i]))) {
        best := Some(i);
      }
    }
  }
}
