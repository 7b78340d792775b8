/** app/streaming.py: the bounded ingest queue and its batching writers. */
module IngestQueues {
  import opened Prelude

  type Event = nat

  datatype Source = Source(fmt: string, sourceType: string, sourceAddr: Option<string>, vendor: Option<string>)

  /** The events of one message and where they came from. */
  datatype Item = Item(events: seq<Event>, source: Source)

  /** One attributable batch. */
  datatype Group = Group(source: Source, events: seq<Event>)

  /** The events of one source, in submission order. */
  function EventsFrom(s: Source, items: seq<Item>): seq<Event> {
    if items == [] then []
    else EventsFrom(s, items[..|items| - 1])
         + (if items[|items| - 1].source == s then items[|items| - 1].events else [])
  }

  function EventsOf(s: Source, groups: seq<Group>): seq<Event> {
    if groups == [] then []
    else (if groups[0].source == s then groups[0].events else []) + EventsOf(s, groups[1..])
  }

  function Bag(groups: seq<Group>): multiset<Event> {
    if groups == [] then multiset{} else multiset(groups[0].events) + Bag(groups[1..])
  }

  function ItemBag(items: seq<Item>): multiset<Event> {
    if items == [] then multiset{} else ItemBag(items[..|items| - 1]) + multiset(items[|items| - 1].events)
  }

  lemma EventsFromSnoc(s: Source, items: seq<Item>, item: Item)
    ensures EventsFrom(s, items + [item]) == EventsFrom(s, items) + (if item.source == s then item.events else [])
    ensures ItemBag(items + [item]) == ItemBag(items) + multiset(item.events)
  {
    assert (items + [item])[..|items|] == items;
  }

  lemma {:induction false} EventsFromAppend(s: Source, a: seq<Item>, b: seq<Item>)
    ensures EventsFrom(s, a + b) == EventsFrom(s, a) + EventsFrom(s, b)
  {
    if b == [] {
      assert a + b == a;
    } else {
      var c, item := b[..|b| - 1], b[|b| - 1];
      assert b == c + [item] && a + b == (a + c) + [item];
      EventsFromAppend(s, a, c);
      EventsFromSnoc(s, a + c, item);
    }
  }

  lemma {:induction false} ItemBagCons(item: Item, items: seq<Item>)
    ensures ItemBag([item] + items) == multiset(item.events) + ItemBag(items)
  {
    if items == [] {
      assert [item] + items == [] + [item];
      EventsFromSnoc(item.source, [], item);
    } else {
      var n := |items| - 1;
      assert [item] + items == ([item] + items[..n]) + [items[n]];
      ItemBagCons(item, items[..n]);
      EventsFromSnoc(item.source, [item] + items[..n], items[n]);
    }
  }

  // ------------------------------------------------------- grouping

  function Sources(groups: seq<Group>): set<Source> {
    if groups == [] then {} else {groups[0].source} + Sources(groups[1..])
  }

  /** No later group has the source of an earlier one. */
  ghost predicate DistinctSources(groups: seq<Group>) {
    groups == [] || (groups[0].source !in Sources(groups[1..]) && DistinctSources(groups[1..]))
  }

  /** `groups[key].extend(events)`, in dictionary order. */
  function Extend(groups: seq<Group>, s: Source, events: seq<Event>): seq<Group> {
    if groups == [] then [Group(s, events)]
    else if groups[0].source == s then [Group(s, groups[0].events + events)] + groups[1..]
    else [groups[0]] + Extend(groups[1..], s, events)
  }

  lemma {:induction false} NoEvents(t: Source, groups: seq<Group>)
    requires t !in Sources(groups)
    ensures EventsOf(t, groups) == []
  {
    if groups != [] { NoEvents(t, groups[1..]); }
  }

  lemma {:induction false} ExtendKeeps(groups: seq<Group>, s: Source, events: seq<Event>)
    requires DistinctSources(groups)
    ensures DistinctSources(Extend(groups, s, events))
    ensures Sources(Extend(groups, s, events)) == Sources(groups) + {s}
  {
    if groups != [] {
      var r := Extend(groups, s, events);
      if groups[0].source == s {
        assert r[1..] == groups[1..];
      } else {
        ExtendKeeps(groups[1..], s, events);
        assert r[1..] == Extend(groups[1..], s, events);
      }
    }
  }

  lemma {:induction false} ExtendCounts(groups: seq<Group>, s: Source, events: seq<Event>, x: Event)
    ensures Bag(Extend(groups, s, events))[x] == Bag(groups)[x] + multiset(events)[x]
  {
    if groups != [] {
      var r := Extend(groups, s, events);
      if groups[0].source == s {
        assert r[1..] == groups[1..];
      } else {
        ExtendCounts(groups[1..], s, events, x);
        assert r[1..] == Extend(groups[1..], s, events);
      }
    }
  }

  lemma {:induction false} ExtendOrder(groups: seq<Group>, s: Source, events: seq<Event>, t: Source)
    requires DistinctSources(groups)
    ensures EventsOf(t, Extend(groups, s, events)) == EventsOf(t, groups) + (if s == t then events else [])
  {
    if groups != [] {
      var r := Extend(groups, s, events);
      if groups[0].source == s {
        assert r[1..] == groups[1..];
        NoEvents(s, groups[1..]);
      } else {
        ExtendOrder(groups[1..], s, events, t);
        assert r[1..] == Extend(groups[1..], s, events);
      }
    }
  }

  function Grouped(items: seq<Item>): seq<Group> {
    if items == [] then []
    else Extend(Grouped(items[..|items| - 1]), items[|items| - 1].source, items[|items| - 1].events)
  }

  function SourcesIn(items: seq<Item>): set<Source> {
    set it | it in items :: it.source
  }

  /** One group for each source among the items. */
  lemma {:induction false} GroupedSources(items: seq<Item>)
    ensures DistinctSources(Grouped(items)) && Sources(Grouped(items)) == SourcesIn(items)
  {
    if items != [] {
      var n := |items| - 1;
      assert items == items[..n] + [items[n]];
      GroupedSources(items[..n]);
      ExtendKeeps(Grouped(items[..n]), items[n].source, items[n].events);
    }
  }

  /** Grouping neither loses nor adds an event. */
  lemma {:induction false} GroupedCounts(items: seq<Item>, x: Event)
    ensures Bag(Grouped(items))[x] == ItemBag(items)[x]
  {
    if items != [] {
      var n := |items| - 1;
      GroupedCounts(items[..n], x);
      ExtendCounts(Grouped(items[..n]), items[n].source, items[n].events, x);
    }
  }

  /** Grouping keeps the order within a source. */
  lemma {:induction false} GroupedOrder(items: seq<Item>, s: Source)
    ensures EventsOf(s, Grouped(items)) == EventsFrom(s, items)
  {
    if items != [] {
      var n := |items| - 1;
      GroupedSources(items[..n]);
      GroupedOrder(items[..n], s);
      ExtendOrder(Grouped(items[..n]), items[n].source, items[n].events, s);
    }
  }

  lemma {:induction false} GroupSource(groups: seq<Group>, g: Group)
    requires g in groups
    ensures g.source in Sources(groups)
  {
    if groups[0] != g { GroupSource(groups[1..], g); }
  }

  lemma {:induction false} OneGroup(groups: seq<Group>, g: Group)
    requires DistinctSources(groups) && g in groups
    ensures EventsOf(g.source, groups) == g.events
  {
    if groups[0] == g {
      NoEvents(g.source, groups[1..]);
    } else {
      OneGroup(groups[1..], g);
      GroupSource(groups[1..], g);
    }
  }

  /** `group_items`: one group per source, holding exactly that source's events in order. */
  method GroupItems(items: seq<Item>) returns (groups: seq<Group>)
    ensures groups == Grouped(items)
    ensures DistinctSources(groups) && Sources(groups) == SourcesIn(items)
    ensures forall g :: g in groups ==> g.events == EventsFrom(g.source, items)
  {
    groups := [];
    for i := 0 to |items|
      invariant groups == Grouped(items[..i])
    {
      assert items[..i + 1][..i] == items[..i] && items[..i + 1][i] == items[i];
      groups := Extend(groups, items[i].source, items[i].events);
    }
    assert items[..|items|] == items;
    GroupedSources(items);
    forall g | g in groups ensures g.events == EventsFrom(g.source, items) {
      OneGroup(groups, g);
      GroupedOrder(items, g.source);
    }
  }

  // ------------------------------------------------------- the system, as a value

  /** A writer task: its buffer, its count, and the groups it is still writing (none between flushes). */
  datatype Worker = Worker(buf: seq<Item>, buffered: nat, todo: seq<Group>)

  datatype Stats = Stats(received: nat, dropped: nat, written: nat, flushErrors: nat, eventsLost: nat)

  /**
   * How writing one group ended: committed and returned, raised before its commit, or raised after it
   * (dispatching alerts, counting the rows or closing the batch), the rows being stored all the same.
   */
  datatype Outcome = Stored(rows: nat) | Failed | Late(rows: nat)

  /** One group dealt with, by which worker. */
  datatype Entry = Entry(worker: nat, group: Group, outcome: Outcome)

  datatype Taken = Taken(worker: nat, item: Item)

  /** The running system with its history: items accepted, items taken off the queue, groups written. */
  datatype System = System(
    maxsize: int, flushMax: nat, queue: seq<Item>, workers: seq<Worker>, stats: Stats,
    submitted: nat, accepted: seq<Item>, taken: seq<Taken>, log: seq<Entry>)

  const IDLE := Worker([], 0, [])

  function AtLeastOne(n: int): nat { if n < 1 then 1 else n }

  function Start(maxsize: int, workers: int, flushMax: int): System {
    System(maxsize, AtLeastOne(flushMax), [], seq(AtLeastOne(workers), i => IDLE), Stats(0, 0, 0, 0, 0), 0, [], [], [])
  }

  /** What may happen next: a message arrives, a worker takes an item or times out, or one group's write ends. */
  datatype Move = Submit(item: Item) | Take(w: nat) | Timeout(w: nat) | Write(w: nat, outcome: Outcome)

  predicate Full(sys: System) { sys.maxsize > 0 && |sys.queue| >= sys.maxsize }

  function AfterSubmit(sys: System, item: Item): System {
    if Full(sys) then sys.(submitted := sys.submitted + 1, stats := sys.stats.(dropped := sys.stats.dropped + 1))
    else sys.(submitted := sys.submitted + 1, stats := sys.stats.(received := sys.stats.received + 1),
              queue := sys.queue + [item], accepted := sys.accepted + [item])
  }

  /** The worker's state once the item is in its buffer: a full buffer starts a flush. */
  function Buffering(wk: Worker, item: Item, flushMax: nat): Worker {
    var buf, n := wk.buf + [item], wk.buffered + |item.events|;
    Worker(buf, n, if n >= flushMax then Grouped(buf) else [])
  }

  function AfterTake(sys: System, w: nat): System
    requires w < |sys.workers| && sys.queue != []
  {
    sys.(queue := sys.queue[1..], taken := sys.taken + [Taken(w, sys.queue[0])],
         workers := sys.workers[w := Buffering(sys.workers[w], sys.queue[0], sys.flushMax)])
  }

  function AfterTimeout(sys: System, w: nat): System
    requires w < |sys.workers|
  {
    var wk := sys.workers[w];
    sys.(workers := sys.workers[w := Worker(wk.buf, wk.buffered, Grouped(wk.buf))])
  }

  /** `_flush` sees only whether the write raised. */
  function Counted(stats: Stats, group: Group, outcome: Outcome): Stats {
    match outcome
    case Stored(rows) => stats.(written := stats.written + rows)
    case _ => stats.(flushErrors := stats.flushErrors + 1, eventsLost := stats.eventsLost + |group.events|)
  }

  /** The worker's state once its first group is dealt with; after the last one the buffer is emptied. */
  function Wrote(wk: Worker): Worker
    requires wk.todo != []
  {
    if |wk.todo| == 1 then IDLE else Worker(wk.buf, wk.buffered, wk.todo[1..])
  }

  function AfterWrite(sys: System, w: nat, outcome: Outcome): System
    requires w < |sys.workers| && sys.workers[w].todo != []
  {
    var g := sys.workers[w].todo[0];
    var next := sys.(workers := sys.workers[w := Wrote(sys.workers[w])]);
    if g.events == [] then next
    else next.(log := sys.log + [Entry(w, g, outcome)], stats := Counted(sys.stats, g, outcome))
  }

  predicate Enabled(sys: System, m: Move) {
    match m
    case Submit(_) => true
    case Take(w) => w < |sys.workers| && sys.workers[w].todo == [] && sys.queue != []
    case Timeout(w) => w < |sys.workers| && sys.workers[w].todo == []
    case Write(w, _) => w < |sys.workers| && sys.workers[w].todo != []
  }

  function Step(sys: System, m: Move): System
    requires Enabled(sys, m)
  {
    match m
    case Submit(item) => AfterSubmit(sys, item)
    case Take(w) => AfterTake(sys, w)
    case Timeout(w) => AfterTimeout(sys, w)
    case Write(w, outcome) => AfterWrite(sys, w, outcome)
  }

  /** Any schedule; a move that cannot happen yet is passed over. */
  function Run(moves: seq<Move>, sys: System): System {
    if moves == [] then sys
    else var before := Run(moves[..|moves| - 1], sys);
         if Enabled(before, moves[|moves| - 1]) then Step(before, moves[|moves| - 1]) else before
  }

  // ------------------------------------------------------- what every schedule keeps

  function Items(taken: seq<Taken>): seq<Item> {
    if taken == [] then [] else Items(taken[..|taken| - 1]) + [taken[|taken| - 1].item]
  }

  function ItemsOf(w: nat, taken: seq<Taken>): seq<Item> {
    if taken == [] then []
    else ItemsOf(w, taken[..|taken| - 1]) + (if taken[|taken| - 1].worker == w then [taken[|taken| - 1].item] else [])
  }

  /** What a worker has dealt with for one source, written or lost, in order. */
  function Dealt(w: nat, s: Source, log: seq<Entry>): seq<Event> {
    if log == [] then []
    else Dealt(w, s, log[..|log| - 1])
         + (if log[|log| - 1].worker == w && log[|log| - 1].group.source == s then log[|log| - 1].group.events else [])
  }

  function Size(items: seq<Item>): nat {
    if items == [] then 0 else Size(items[..|items| - 1]) + |items[|items| - 1].events|
  }

  /** What a worker holds: its buffer, or the groups still to write. */
  function Held(wk: Worker): multiset<Event> {
    if wk.todo == [] then ItemBag(wk.buf) else Bag(wk.todo)
  }

  function HeldByAll(workers: seq<Worker>): multiset<Event> {
    if workers == [] then multiset{} else Held(workers[0]) + HeldByAll(workers[1..])
  }

  /** The events of the groups that committed (`lost` false) or were discarded (`lost` true). */
  function Ended(log: seq<Entry>, lost: bool): multiset<Event> {
    if log == [] then multiset{}
    else Ended(log[..|log| - 1], lost)
         + (if log[|log| - 1].outcome.Failed? == lost then multiset(log[|log| - 1].group.events) else multiset{})
  }

  /** Groups whose write raised. */
  function Raised(log: seq<Entry>): nat {
    if log == [] then 0 else Raised(log[..|log| - 1]) + (if log[|log| - 1].outcome.Stored? then 0 else 1)
  }

  /** Rows stored by groups that returned (`late` false) or that raised after their commit (`late` true). */
  function Rows(log: seq<Entry>, late: bool): nat {
    if log == [] then 0 else Rows(log[..|log| - 1], late) + RowsOf(log[|log| - 1].outcome, late)
  }

  function RowsOf(o: Outcome, late: bool): nat {
    if o.Failed? || o.Late? != late then 0 else o.rows
  }

  /** How many events are in groups that raised after their commit. */
  function LateOnes(log: seq<Entry>): nat {
    if log == [] then 0
    else LateOnes(log[..|log| - 1]) + (if log[|log| - 1].outcome.Late? then |log[|log| - 1].group.events| else 0)
  }

  ghost predicate Shape(sys: System) {
    && sys.workers != [] && sys.flushMax >= 1
    && (sys.maxsize > 0 ==> |sys.queue| <= sys.maxsize)
    && Items(sys.taken) + sys.queue == sys.accepted
    && (forall t :: t in sys.taken ==> t.worker < |sys.workers|)
  }

  /** A worker's count is the size of its buffer, and between flushes it is below the limit. */
  ghost predicate WorkerOk(wk: Worker, flushMax: nat) {
    && wk.buffered == Size(wk.buf)
    && (wk.todo == [] ==> wk.buffered < flushMax)
  }

  ghost predicate WorkersOk(sys: System) {
    forall i :: 0 <= i < |sys.workers| ==> WorkerOk(sys.workers[i], sys.flushMax)
  }

  /**
   * What the counters say: `written` the rows of groups whose write returned, `flush_errors` the
   * groups whose write raised, `events_lost` the events of those, discarded or not.
   */
  ghost predicate CountersMean(sys: System) {
    && sys.stats.received == |sys.accepted|
    && sys.stats.received + sys.stats.dropped == sys.submitted
    && sys.stats.written == Rows(sys.log, false)
    && sys.stats.flushErrors == Raised(sys.log)
    && sys.stats.eventsLost == |Ended(sys.log, true)| + LateOnes(sys.log)
  }

  /** Only groups with events are written at all. */
  ghost predicate LogFilled(sys: System) {
    forall e :: e in sys.log ==> e.group.events != []
  }

  /** Every accepted event is queued, held by a worker, committed or discarded, and nothing else is. */
  ghost predicate Conserved(sys: System) {
    forall x :: ConservedAt(sys, x)
  }

  ghost predicate ConservedAt(sys: System, x: Event) {
    ItemBag(sys.accepted)[x]
    == ItemBag(sys.queue)[x] + HeldByAll(sys.workers)[x] + Ended(sys.log, false)[x] + Ended(sys.log, true)[x]
  }

  /** What a worker has still to deal with for one source, in order. */
  function Pending(s: Source, wk: Worker): seq<Event> {
    if wk.todo == [] then EventsFrom(s, wk.buf) else EventsOf(s, wk.todo)
  }

  /** Each worker deals with each source's events in the order it took them off the queue. */
  ghost predicate InOrder(sys: System, w: nat, s: Source) {
    w < |sys.workers| ==>
      EventsFrom(s, ItemsOf(w, sys.taken)) == Dealt(w, s, sys.log) + Pending(s, sys.workers[w])
  }

  ghost predicate Ordered(sys: System) {
    forall w: nat, s: Source :: InOrder(sys, w, s)
  }

  ghost predicate Invariant(sys: System) {
    Shape(sys) && WorkersOk(sys) && CountersMean(sys) && LogFilled(sys) && Conserved(sys) && Ordered(sys)
  }

  lemma {:induction false} HeldUpdate(workers: seq<Worker>, w: nat, wk: Worker, x: Event)
    requires w < |workers|
    ensures HeldByAll(workers[w := wk])[x] + Held(workers[w])[x] == HeldByAll(workers)[x] + Held(wk)[x]
  {
    var next := workers[w := wk];
    if w == 0 {
      assert next[1..] == workers[1..];
    } else {
      assert next[1..] == workers[1..][w - 1 := wk];
      HeldUpdate(workers[1..], w - 1, wk, x);
    }
  }

  lemma {:induction false} NoneHeld(workers: seq<Worker>)
    requires forall i :: 0 <= i < |workers| ==> workers[i] == IDLE
    ensures HeldByAll(workers) == multiset{}
  {
    if workers != [] { NoneHeld(workers[1..]); }
  }

  lemma StartOk(maxsize: int, workers: int, flushMax: int)
    ensures Invariant(Start(maxsize, workers, flushMax))
  {
    NoneHeld(Start(maxsize, workers, flushMax).workers);
  }

  lemma LogSnoc(log: seq<Entry>, e: Entry)
    ensures (log + [e])[..|log|] == log
  {}

  lemma TakenSnoc(taken: seq<Taken>, t: Taken)
    ensures Items(taken + [t]) == Items(taken) + [t.item]
    ensures forall w: nat :: ItemsOf(w, taken + [t])
              == if t.worker == w then ItemsOf(w, taken) + [t.item] else ItemsOf(w, taken)
  {
    assert (taken + [t])[..|taken|] == taken;
    forall w: nat
      ensures ItemsOf(w, taken + [t]) == if t.worker == w then ItemsOf(w, taken) + [t.item] else ItemsOf(w, taken)
    {
      assert ItemsOf(w, taken) + [] == ItemsOf(w, taken);
    }
  }

  lemma SizeSnoc(items: seq<Item>, item: Item)
    ensures Size(items + [item]) == Size(items) + |item.events|
  {
    assert (items + [item])[..|items|] == items;
  }

  /** The first item of the queue, counted apart. */
  lemma HeadCounts(items: seq<Item>, x: Event)
    requires items != []
    ensures ItemBag(items)[x] == multiset(items[0].events)[x] + ItemBag(items[1..])[x]
  {
    assert items == [items[0]] + items[1..];
    ItemBagCons(items[0], items[1..]);
  }

  lemma SubmitKeeps(sys: System, item: Item)
    requires Invariant(sys)
    ensures Invariant(AfterSubmit(sys, item))
  {
    var next := AfterSubmit(sys, item);
    forall x ensures ConservedAt(next, x) {
      assert ConservedAt(sys, x);
      EventsFromSnoc(item.source, sys.queue, item);
      EventsFromSnoc(item.source, sys.accepted, item);
    }
    forall w: nat, s: Source ensures InOrder(next, w, s) { assert InOrder(sys, w, s); }
    assert Shape(next);
  }

  /** Starting a flush holds the same events. */
  lemma FlushHoldsSame(wk: Worker, x: Event)
    requires wk.todo == Grouped(wk.buf) || wk.todo == []
    ensures Held(wk)[x] == ItemBag(wk.buf)[x]
  {
    GroupedCounts(wk.buf, x);
  }

  lemma FlushPendsSame(wk: Worker, s: Source)
    requires wk.todo == Grouped(wk.buf) || wk.todo == []
    ensures Pending(s, wk) == EventsFrom(s, wk.buf)
  {
    GroupedOrder(wk.buf, s);
  }

  lemma SomethingToFlush(buf: seq<Item>)
    requires buf != []
    ensures Grouped(buf) != []
  {
    GroupedSources(buf);
    assert buf[0].source in SourcesIn(buf);
  }

  lemma TakeConserves(sys: System, w: nat, x: Event)
    requires Enabled(sys, Take(w)) && ConservedAt(sys, x)
    ensures ConservedAt(AfterTake(sys, w), x)
  {
    var wk, item := sys.workers[w], sys.queue[0];
    var after := Buffering(wk, item, sys.flushMax);
    FlushHoldsSame(after, x);
    EventsFromSnoc(item.source, wk.buf, item);
    HeldUpdate(sys.workers, w, after, x);
    HeadCounts(sys.queue, x);
  }

  lemma TakeOrders(sys: System, w: nat, i: nat, s: Source)
    requires Enabled(sys, Take(w)) && InOrder(sys, i, s)
    ensures InOrder(AfterTake(sys, w), i, s)
  {
    var wk, item := sys.workers[w], sys.queue[0];
    TakenSnoc(sys.taken, Taken(w, item));
    if i == w {
      FlushPendsSame(Buffering(wk, item, sys.flushMax), s);
      EventsFromSnoc(s, ItemsOf(w, sys.taken), item);
      EventsFromSnoc(s, wk.buf, item);
      Assoc(Dealt(w, s, sys.log), EventsFrom(s, wk.buf), if item.source == s then item.events else []);
    }
  }

  lemma TakeShapes(sys: System, w: nat)
    requires Shape(sys) && Enabled(sys, Take(w))
    ensures Shape(AfterTake(sys, w))
  {
    var next, item := AfterTake(sys, w), sys.queue[0];
    TakenSnoc(sys.taken, Taken(w, item));
    assert sys.queue == [item] + sys.queue[1..];
    Assoc(Items(sys.taken), [item], sys.queue[1..]);
  }

  lemma TakeFills(wk: Worker, item: Item, flushMax: nat)
    requires WorkerOk(wk, flushMax) && wk.todo == []
    ensures WorkerOk(Buffering(wk, item, flushMax), flushMax)
  {
    SizeSnoc(wk.buf, item);
    SomethingToFlush(wk.buf + [item]);
  }

  lemma TakeKeeps(sys: System, w: nat)
    requires Invariant(sys) && Enabled(sys, Take(w))
    ensures Invariant(AfterTake(sys, w))
  {
    var next := AfterTake(sys, w);
    TakeShapes(sys, w);
    TakeFills(sys.workers[w], sys.queue[0], sys.flushMax);
    assert WorkersOk(next) && CountersMean(next);
    forall x ensures ConservedAt(next, x) { TakeConserves(sys, w, x); }
    forall i: nat, s: Source ensures InOrder(next, i, s) { TakeOrders(sys, w, i, s); }
  }

  lemma TimeoutKeeps(sys: System, w: nat)
    requires Invariant(sys) && Enabled(sys, Timeout(w))
    ensures Invariant(AfterTimeout(sys, w))
  {
    var next := AfterTimeout(sys, w);
    forall x ensures ConservedAt(next, x) {
      assert ConservedAt(sys, x);
      FlushHoldsSame(next.workers[w], x);
      HeldUpdate(sys.workers, w, next.workers[w], x);
    }
    forall i: nat, s: Source ensures InOrder(next, i, s) {
      assert InOrder(sys, i, s);
      FlushPendsSame(next.workers[w], s);
    }
    assert Shape(next);
    assert WorkerOk(sys.workers[w], sys.flushMax);
  }

  lemma WroteHolds(wk: Worker, x: Event)
    requires wk.todo != []
    ensures Held(wk)[x] == multiset(wk.todo[0].events)[x] + Held(Wrote(wk))[x]
  {
    if |wk.todo| == 1 { assert Bag(wk.todo[1..]) == multiset{} && ItemBag(IDLE.buf) == multiset{}; }
  }

  lemma WrotePends(wk: Worker, s: Source)
    requires wk.todo != []
    ensures Pending(s, wk) == (if wk.todo[0].source == s then wk.todo[0].events else []) + Pending(s, Wrote(wk))
  {
    if |wk.todo| == 1 { assert EventsOf(s, wk.todo[1..]) == [] && EventsFrom(s, IDLE.buf) == []; }
  }

  lemma EndedSnoc(log: seq<Entry>, e: Entry, lost: bool, x: Event)
    ensures Ended(log + [e], lost)[x]
         == Ended(log, lost)[x] + (if e.outcome.Failed? == lost then multiset(e.group.events)[x] else 0)
  {
    LogSnoc(log, e);
  }

  lemma WriteConserves(sys: System, w: nat, outcome: Outcome, x: Event)
    requires Enabled(sys, Write(w, outcome)) && ConservedAt(sys, x)
    ensures ConservedAt(AfterWrite(sys, w, outcome), x)
  {
    var wk := sys.workers[w];
    HeldUpdate(sys.workers, w, Wrote(wk), x);
    WroteHolds(wk, x);
    EndedSnoc(sys.log, Entry(w, wk.todo[0], outcome), false, x);
    EndedSnoc(sys.log, Entry(w, wk.todo[0], outcome), true, x);
  }

  lemma EndedSize(log: seq<Entry>, e: Entry)
    ensures |Ended(log + [e], true)| == |Ended(log, true)| + (if e.outcome.Failed? then |e.group.events| else 0)
    ensures LateOnes(log + [e]) == LateOnes(log) + (if e.outcome.Late? then |e.group.events| else 0)
    ensures Rows(log + [e], false) == Rows(log, false) + RowsOf(e.outcome, false)
    ensures Raised(log + [e]) == Raised(log) + (if e.outcome.Stored? then 0 else 1)
  {
    LogSnoc(log, e);
    assert |multiset(e.group.events)| == |e.group.events|;
  }

  lemma CountedTrue(stats: Stats, log: seq<Entry>, e: Entry)
    requires stats.written == Rows(log, false) && stats.flushErrors == Raised(log)
    requires stats.eventsLost == |Ended(log, true)| + LateOnes(log)
    ensures var next := Counted(stats, e.group, e.outcome);
            && next.received == stats.received && next.dropped == stats.dropped
            && next.written == Rows(log + [e], false) && next.flushErrors == Raised(log + [e])
            && next.eventsLost == |Ended(log + [e], true)| + LateOnes(log + [e])
  {
    EndedSize(log, e);
  }

  lemma WriteCounts(sys: System, w: nat, outcome: Outcome)
    requires Enabled(sys, Write(w, outcome)) && CountersMean(sys)
    ensures CountersMean(AfterWrite(sys, w, outcome))
  {
    CountedTrue(sys.stats, sys.log, Entry(w, sys.workers[w].todo[0], outcome));
  }

  lemma WriteOrders(sys: System, w: nat, outcome: Outcome, i: nat, s: Source)
    requires Enabled(sys, Write(w, outcome)) && InOrder(sys, i, s)
    ensures InOrder(AfterWrite(sys, w, outcome), i, s)
  {
    var wk := sys.workers[w];
    var g := wk.todo[0];
    LogSnoc(sys.log, Entry(w, g, outcome));
    if i == w {
      var mine := if g.source == s then g.events else [];
      WrotePends(wk, s);
      Assoc(Dealt(w, s, sys.log), mine, Pending(s, Wrote(wk)));
    }
  }

  lemma WriteShapes(sys: System, w: nat, outcome: Outcome)
    requires Shape(sys) && WorkersOk(sys) && LogFilled(sys) && Enabled(sys, Write(w, outcome))
    ensures var next := AfterWrite(sys, w, outcome); Shape(next) && WorkersOk(next) && LogFilled(next)
  {
    assert WorkerOk(sys.workers[w], sys.flushMax);
    assert WorkerOk(Wrote(sys.workers[w]), sys.flushMax);
  }

  lemma WriteKeeps(sys: System, w: nat, outcome: Outcome)
    requires Invariant(sys) && Enabled(sys, Write(w, outcome))
    ensures Invariant(AfterWrite(sys, w, outcome))
  {
    var next := AfterWrite(sys, w, outcome);
    WriteShapes(sys, w, outcome);
    WriteCounts(sys, w, outcome);
    forall x ensures ConservedAt(next, x) { WriteConserves(sys, w, outcome, x); }
    forall i: nat, s: Source ensures InOrder(next, i, s) { WriteOrders(sys, w, outcome, i, s); }
  }

  lemma StepKeeps(sys: System, m: Move)
    requires Invariant(sys) && Enabled(sys, m)
    ensures Invariant(Step(sys, m))
  {
    match m
    case Submit(item) => SubmitKeeps(sys, item);
    case Take(w) => TakeKeeps(sys, w);
    case Timeout(w) => TimeoutKeeps(sys, w);
    case Write(w, outcome) => WriteKeeps(sys, w, outcome);
  }

  /** Whatever the number of workers and whatever the schedule, the invariant holds. */
  lemma {:induction false} EverySchedule(moves: seq<Move>, maxsize: int, workers: int, flushMax: int)
    ensures Invariant(Run(moves, Start(maxsize, workers, flushMax)))
  {
    if moves == [] {
      StartOk(maxsize, workers, flushMax);
    } else {
      var n := |moves| - 1;
      EverySchedule(moves[..n], maxsize, workers, flushMax);
      var before := Run(moves[..n], Start(maxsize, workers, flushMax));
      if Enabled(before, moves[n]) { StepKeeps(before, moves[n]); }
    }
  }

  lemma {:induction false} LateOnesCount(log: seq<Entry>)
    requires forall e :: e in log ==> e.group.events != []
    ensures LateOnes(log) == 0 <==> forall e :: e in log ==> !e.outcome.Late?
  {
    if log != [] {
      var n := |log| - 1;
      assert log == log[..n] + [log[n]];
      LateOnesCount(log[..n]);
    }
  }

  /**
   * In numbers: accepted events, and once more those of groups that raised after their commit, are
   * those queued, held by workers, in committed groups and in `events_lost`. So the plain balance holds
   * exactly when no group has raised after its commit.
   */
  lemma EventsBalance(moves: seq<Move>, maxsize: int, workers: int, flushMax: int)
    ensures var sys := Run(moves, Start(maxsize, workers, flushMax));
            var sum := |ItemBag(sys.queue)| + |HeldByAll(sys.workers)| + |Ended(sys.log, false)| + sys.stats.eventsLost;
            && |ItemBag(sys.accepted)| + LateOnes(sys.log) == sum
            && (|ItemBag(sys.accepted)| == sum <==> forall e :: e in sys.log ==> !e.outcome.Late?)
  {
    EverySchedule(moves, maxsize, workers, flushMax);
    var sys := Run(moves, Start(maxsize, workers, flushMax));
    var all := ItemBag(sys.queue) + HeldByAll(sys.workers) + Ended(sys.log, false) + Ended(sys.log, true);
    forall x ensures ItemBag(sys.accepted)[x] == all[x] { assert ConservedAt(sys, x); }
    assert ItemBag(sys.accepted) == all;
    LateOnesCount(sys.log);
  }

  /** The rows in the table, whichever way the write ended. */
  function AllRows(log: seq<Entry>): nat {
    if log == [] then 0
    else AllRows(log[..|log| - 1]) + (if log[|log| - 1].outcome.Failed? then 0 else log[|log| - 1].outcome.rows)
  }

  /** `written` misses exactly the rows of groups that raised after their commit. */
  lemma {:induction false} RowsStored(log: seq<Entry>)
    ensures Rows(log, false) + Rows(log, true) == AllRows(log)
  {
    if log != [] { RowsStored(log[..|log| - 1]); }
  }

  // ------------------------------------------------------- when it refuses, and when it flushes

  lemma {:induction false} LimitsAreKept(moves: seq<Move>, maxsize: int, workers: int, flushMax: int)
    ensures var sys := Run(moves, Start(maxsize, workers, flushMax));
            && sys.maxsize == maxsize
            && (flushMax >= 1 ==> sys.flushMax == flushMax) && (flushMax < 1 ==> sys.flushMax == 1)
            && (workers >= 1 ==> |sys.workers| == workers) && (workers < 1 ==> |sys.workers| == 1)
  {
    if moves != [] { LimitsAreKept(moves[..|moves| - 1], maxsize, workers, flushMax); }
  }

  lemma RunOne(moves: seq<Move>, m: Move, start: System)
    requires Enabled(Run(moves, start), m)
    ensures Run(moves + [m], start) == Step(Run(moves, start), m)
  {
    assert (moves + [m])[..|moves|] == moves;
  }

  /** An item is refused exactly when a bounded queue holds as many items as it may; else it is queued last. */
  lemma RefusedExactlyWhenFull(moves: seq<Move>, maxsize: int, workers: int, flushMax: int, item: Item)
    ensures var sys := Run(moves, Start(maxsize, workers, flushMax));
            var next := Run(moves + [Submit(item)], Start(maxsize, workers, flushMax));
            var full := maxsize > 0 && |sys.queue| == maxsize;
            && next.stats.dropped == sys.stats.dropped + (if full then 1 else 0)
            && next.stats.received == sys.stats.received + (if full then 0 else 1)
            && next.queue == sys.queue + (if full then [] else [item])
            && next.accepted == sys.accepted + (if full then [] else [item])
            && next.workers == sys.workers && next.log == sys.log
  {
    var start := Start(maxsize, workers, flushMax);
    EverySchedule(moves, maxsize, workers, flushMax);
    LimitsAreKept(moves, maxsize, workers, flushMax);
    RunOne(moves, Submit(item), start);
    var sys := Run(moves, start);
    assert sys.queue + [] == sys.queue && sys.accepted + [] == sys.accepted;
  }

  lemma {:induction false} SizeIsOfTheBag(items: seq<Item>)
    ensures Size(items) == |ItemBag(items)|
  {
    if items != [] { SizeIsOfTheBag(items[..|items| - 1]); }
  }

  /** The groups being written are the whole buffer, source by source, in order, one group for each source. */
  ghost predicate FlushesAll(wk: Worker) {
    DistinctSources(wk.todo) && forall s: Source :: EventsOf(s, wk.todo) == EventsFrom(s, wk.buf)
  }

  lemma BufferFlushes(buf: seq<Item>, n: nat)
    ensures FlushesAll(Worker(buf, n, Grouped(buf))) && (Grouped(buf) != [] <==> buf != [])
  {
    GroupedSources(buf);
    if buf != [] { SomethingToFlush(buf); }
    forall s: Source ensures EventsOf(s, Grouped(buf)) == EventsFrom(s, buf) { GroupedOrder(buf, s); }
  }

  lemma BufferingMeans(wk: Worker, item: Item, flushMax: nat)
    requires WorkerOk(wk, flushMax)
    ensures var next := Buffering(wk, item, flushMax);
            && next.buf == wk.buf + [item]
            && (next.todo != [] <==> |ItemBag(next.buf)| >= flushMax)
            && (next.todo != [] ==> FlushesAll(next))
  {
    var next := Buffering(wk, item, flushMax);
    SizeSnoc(wk.buf, item);
    SizeIsOfTheBag(next.buf);
    BufferFlushes(next.buf, next.buffered);
  }

  /**
   * Taking an item moves the oldest one into the worker's buffer; a flush of all of it starts exactly when
   * the buffer has reached the limit in events, and the other workers do not move.
   */
  lemma FlushStartsAtLimit(moves: seq<Move>, maxsize: int, workers: int, flushMax: int, w: nat)
    requires Enabled(Run(moves, Start(maxsize, workers, flushMax)), Take(w))
    ensures var sys := Run(moves, Start(maxsize, workers, flushMax));
            var next := Step(sys, Take(w));
            && sys.queue == [sys.queue[0]] + next.queue
            && next.workers[w].buf == sys.workers[w].buf + [sys.queue[0]]
            && (next.workers[w].todo != [] <==> |ItemBag(next.workers[w].buf)| >= sys.flushMax)
            && (next.workers[w].todo != [] ==> FlushesAll(next.workers[w]))
            && |next.workers| == |sys.workers|
            && forall v :: 0 <= v < |sys.workers| && v != w ==> next.workers[v] == sys.workers[v]
  {
    var sys := Run(moves, Start(maxsize, workers, flushMax));
    EverySchedule(moves, maxsize, workers, flushMax);
    assert WorkerOk(sys.workers[w], sys.flushMax);
    BufferingMeans(sys.workers[w], sys.queue[0], sys.flushMax);
  }

  /** A wait that times out flushes all the worker holds, however little. */
  lemma TimeoutFlushesAll(sys: System, w: nat)
    requires Enabled(sys, Timeout(w))
    ensures var next := Step(sys, Timeout(w)).workers[w];
            && next.buf == sys.workers[w].buf && FlushesAll(next) && (next.todo != [] <==> next.buf != [])
  {
    BufferFlushes(sys.workers[w].buf, sys.workers[w].buffered);
  }

  lemma {:induction false} OnlyWorker(taken: seq<Taken>)
    requires forall t :: t in taken ==> t.worker == 0
    ensures ItemsOf(0, taken) == Items(taken)
  {
    if taken != [] {
      assert taken[|taken| - 1] in taken;
      OnlyWorker(taken[..|taken| - 1]);
    }
  }

  lemma {:induction false} WorkersStay(moves: seq<Move>, maxsize: int, workers: int, flushMax: int)
    ensures |Run(moves, Start(maxsize, workers, flushMax)).workers| == AtLeastOne(workers)
  {
    if moves != [] { WorkersStay(moves[..|moves| - 1], maxsize, workers, flushMax); }
  }

  /** With one worker each source's events are dealt with in exactly the order they were submitted. */
  lemma OneWorkerIsFifo(moves: seq<Move>, maxsize: int, workers: int, flushMax: int, s: Source)
    requires workers <= 1
    ensures var sys := Run(moves, Start(maxsize, workers, flushMax));
            && |sys.workers| == 1
            && EventsFrom(s, sys.accepted)
               == Dealt(0, s, sys.log) + Pending(s, sys.workers[0]) + EventsFrom(s, sys.queue)
  {
    var sys := Run(moves, Start(maxsize, workers, flushMax));
    EverySchedule(moves, maxsize, workers, flushMax);
    WorkersStay(moves, maxsize, workers, flushMax);
    OnlyWorker(sys.taken);
    EventsFromAppend(s, Items(sys.taken), sys.queue);
    assert InOrder(sys, 0, s);
  }

  // ------------------------------------------------------- draining

  /** What one worker has still to do: two steps for an item it holds, one for a group it is writing. */
  function WorkOf(wk: Worker): nat {
    if wk.todo == [] then 2 * |wk.buf| else |wk.todo|
  }

  function WorkOfAll(workers: seq<Worker>): nat {
    if workers == [] then 0 else WorkOf(workers[0]) + WorkOfAll(workers[1..])
  }

  /** The steps still to do once nothing more is submitted. */
  function Work(sys: System): nat { 3 * |sys.queue| + WorkOfAll(sys.workers) }

  /** A step of a worker, other than timing out with nothing in its buffer. */
  predicate Busy(sys: System, m: Move) {
    Enabled(sys, m) && !m.Submit? && (m.Timeout? ==> sys.workers[m.w].buf != [])
  }

  lemma {:induction false} WorkUpdate(workers: seq<Worker>, w: nat, wk: Worker)
    requires w < |workers|
    ensures WorkOfAll(workers[w := wk]) + WorkOf(workers[w]) == WorkOfAll(workers) + WorkOf(wk)
  {
    var next := workers[w := wk];
    if w == 0 {
      assert next[1..] == workers[1..];
    } else {
      assert next[1..] == workers[1..][w - 1 := wk];
      WorkUpdate(workers[1..], w - 1, wk);
    }
  }

  lemma {:induction false} ExtendLength(groups: seq<Group>, s: Source, events: seq<Event>)
    ensures 1 <= |Extend(groups, s, events)| <= |groups| + 1
  {
    if groups != [] && groups[0].source != s { ExtendLength(groups[1..], s, events); }
  }

  lemma {:induction false} GroupsAtMost(items: seq<Item>)
    ensures |Grouped(items)| <= |items|
  {
    if items != [] {
      var n := |items| - 1;
      GroupsAtMost(items[..n]);
      ExtendLength(Grouped(items[..n]), items[n].source, items[n].events);
    }
  }

  lemma TakeDrains(sys: System, w: nat)
    requires Enabled(sys, Take(w))
    ensures Work(AfterTake(sys, w)) < Work(sys)
  {
    var wk, next := sys.workers[w], Buffering(sys.workers[w], sys.queue[0], sys.flushMax);
    WorkUpdate(sys.workers, w, next);
    GroupsAtMost(wk.buf + [sys.queue[0]]);
    assert WorkOf(next) <= WorkOf(wk) + 2;
  }

  lemma TimeoutDrains(sys: System, w: nat)
    requires Enabled(sys, Timeout(w)) && sys.workers[w].buf != []
    ensures Work(AfterTimeout(sys, w)) < Work(sys)
  {
    var wk := sys.workers[w];
    WorkUpdate(sys.workers, w, Worker(wk.buf, wk.buffered, Grouped(wk.buf)));
    GroupsAtMost(wk.buf);
    SomethingToFlush(wk.buf);
  }

  lemma WriteDrains(sys: System, w: nat, outcome: Outcome)
    requires Enabled(sys, Write(w, outcome))
    ensures Work(AfterWrite(sys, w, outcome)) < Work(sys)
  {
    WorkUpdate(sys.workers, w, Wrote(sys.workers[w]));
  }

  /** Every step of a worker brings the system closer to rest, whatever the others do. */
  lemma EveryStepDrains(sys: System, m: Move)
    requires Busy(sys, m)
    ensures Work(Step(sys, m)) < Work(sys)
  {
    match m
    case Take(w) => TakeDrains(sys, w);
    case Timeout(w) => TimeoutDrains(sys, w);
    case Write(w, outcome) => WriteDrains(sys, w, outcome);
  }

  lemma {:induction false} SomeoneWorks(workers: seq<Worker>)
    requires WorkOfAll(workers) > 0
    ensures exists w :: 0 <= w < |workers| && WorkOf(workers[w]) > 0
  {
    if WorkOf(workers[0]) == 0 {
      SomeoneWorks(workers[1..]);
      var w :| 0 <= w < |workers[1..]| && WorkOf(workers[1..][w]) > 0;
      assert WorkOf(workers[w + 1]) > 0;
    }
  }

  /** While there is work some worker can step. */
  lemma NeverStuck(sys: System)
    requires sys.workers != [] && Work(sys) > 0
    ensures exists m :: Busy(sys, m)
  {
    if WorkOfAll(sys.workers) > 0 {
      SomeoneWorks(sys.workers);
      var w :| 0 <= w < |sys.workers| && WorkOf(sys.workers[w]) > 0;
      assert Busy(sys, if sys.workers[w].todo == [] then Timeout(w) else Write(w, Failed));
    } else {
      WorkUpdate(sys.workers, 0, IDLE);
      assert Busy(sys, Take(0));
    }
  }

  lemma {:induction false} NoWorkHoldsNothing(workers: seq<Worker>)
    requires WorkOfAll(workers) == 0
    ensures HeldByAll(workers) == multiset{}
  {
    if workers != [] { NoWorkHoldsNothing(workers[1..]); }
  }

  /** At rest every accepted event has been committed or discarded, and not both. */
  lemma AtRest(moves: seq<Move>, maxsize: int, workers: int, flushMax: int)
    requires Work(Run(moves, Start(maxsize, workers, flushMax))) == 0
    ensures var sys := Run(moves, Start(maxsize, workers, flushMax));
            && ItemBag(sys.accepted) == Ended(sys.log, false) + Ended(sys.log, true)
            && |ItemBag(sys.accepted)| + LateOnes(sys.log) == |Ended(sys.log, false)| + sys.stats.eventsLost
  {
    var sys := Run(moves, Start(maxsize, workers, flushMax));
    EverySchedule(moves, maxsize, workers, flushMax);
    NoWorkHoldsNothing(sys.workers);
    forall x ensures ItemBag(sys.accepted)[x] == (Ended(sys.log, false) + Ended(sys.log, true))[x] {
      assert ConservedAt(sys, x);
    }
    assert ItemBag(sys.accepted) == Ended(sys.log, false) + Ended(sys.log, true);
  }

  lemma OneTaken(item: Item)
    requires |item.events| == 1
    ensures var sys := Run([Submit(item), Take(0)], Start(0, 1, 1));
            && sys.queue == [] && sys.accepted == [item] && sys.log == []
            && sys.stats.written == 0 && sys.stats.eventsLost == 0
            && |sys.workers| == 1 && sys.workers[0].todo == [Group(item.source, item.events)]
  {
    var start := Start(0, 1, 1);
    RunOne([], Submit(item), start);
    assert [] + [Submit(item)] == [Submit(item)] && [] + [item] == [item] && [item][1..] == [];
    RunOne([Submit(item)], Take(0), start);
    assert [Submit(item)] + [Take(0)] == [Submit(item), Take(0)];
    assert [item][..0] == [] && Grouped([item]) == [Group(item.source, item.events)];
  }

  lemma OneWritten(sys: System, item: Item)
    requires |item.events| == 1 && sys.accepted == [item] && sys.log == []
    requires |sys.workers| == 1 && sys.workers[0].todo == [Group(item.source, item.events)]
    ensures var next := AfterWrite(sys, 0, Late(1));
            && |ItemBag(next.accepted)| == 1 && |Ended(next.log, false)| == 1
            && next.stats.eventsLost == sys.stats.eventsLost + 1 && next.stats.written == sys.stats.written
            && next.queue == sys.queue && next.workers == [IDLE]
  {
    var entry := Entry(0, Group(item.source, item.events), Late(1));
    assert AfterWrite(sys, 0, Late(1)).log == [entry] && [entry][..0] == [] && [item][..0] == [];
    assert |multiset(item.events)| == 1;
  }

  /** One event, one worker, and a write that commits its row and then raises: stored, and counted as lost. */
  lemma StoredAndCountedLost(item: Item)
    requires |item.events| == 1
    ensures var sys := Run([Submit(item), Take(0), Write(0, Late(1))], Start(0, 1, 1));
            && |ItemBag(sys.accepted)| == 1 && |Ended(sys.log, false)| == 1 && sys.stats.eventsLost == 1
            && sys.stats.written == 0 && sys.queue == [] && sys.workers == [IDLE]
  {
    var moves := [Submit(item), Take(0)];
    OneTaken(item);
    OneWritten(Run(moves, Start(0, 1, 1)), item);
    RunOne(moves, Write(0, Late(1)), Start(0, 1, 1));
    assert moves + [Write(0, Late(1))] == [Submit(item), Take(0), Write(0, Late(1))];
  }

  // ------------------------------------------------------- the class

  class IngestQueue {
    var q: seq<Item>
    const maxsize: int
    const flushMax: nat
    var workers: seq<Worker>
    var received: nat
    var dropped: nat
    var written: nat
    var flushErrors: nat
    var eventsLost: nat
    ghost var submitted: nat
    ghost var accepted: seq<Item>
    ghost var taken: seq<Taken>
    ghost var log: seq<Entry>

    ghost function Now(): System
      reads this
    {
      System(maxsize, flushMax, q, workers, Stats(received, dropped, written, flushErrors, eventsLost),
             submitted, accepted, taken, log)
    }

    constructor (maxsize: int, workers: int, flushMax: int)
      ensures Now() == Start(maxsize, workers, flushMax)
    {
      this.maxsize, this.flushMax := maxsize, AtLeastOne(flushMax);
      this.workers := seq(AtLeastOne(workers), i => IDLE);
      q, received, dropped, written, flushErrors, eventsLost := [], 0, 0, 0, 0, 0;
      submitted, accepted, taken, log := 0, [], [], [];
    }

    /** `submit`: never blocks; a full queue drops the item and counts it. */
    method Submit(item: Item) returns (ok: bool)
      modifies this
      ensures Now() == AfterSubmit(old(Now()), item)
      ensures ok <==> !Full(old(Now()))
    {
      submitted := submitted + 1;
      ok := !(maxsize > 0 && |q| >= maxsize);
      if ok {
        q := q + [item];
        accepted := accepted + [item];
        received := received + 1;
      } else {
        dropped := dropped + 1;
      }
    }

    /** A worker's `get` returns: buffer the item, and start a flush once the buffer is full. */
    method Take(w: nat)
      requires Enabled(Now(), Move.Take(w))
      modifies this
      ensures Now() == AfterTake(old(Now()), w)
    {
      var item := q[0];
      q := q[1..];
      taken := taken + [Taken(w, item)];
      var buf, n := workers[w].buf + [item], workers[w].buffered + |item.events|;
      var todo: seq<Group> := [];
      if n >= flushMax {
        todo := GroupItems(buf);
      }
      workers := workers[w := Worker(buf, n, todo)];
    }

    /** A worker's wait times out: flush what there is. */
    method Timeout(w: nat)
      requires Enabled(Now(), Move.Timeout(w))
      modifies this
      ensures Now() == AfterTimeout(old(Now()), w)
    {
      var wk := workers[w];
      if wk.buf != [] {
        var todo := GroupItems(wk.buf);
        workers := workers[w := Worker(wk.buf, wk.buffered, todo)];
      } else {
        workers := workers[w := Worker(wk.buf, wk.buffered, [])];
      }
    }

    /** One group of a flush: skipped when empty; else counted as written, or as lost when its write raised. */
    method WriteGroup(w: nat, outcome: Outcome)
      requires Enabled(Now(), Write(w, outcome))
      modifies this
      ensures Now() == AfterWrite(old(Now()), w, outcome)
    {
      var g, rest := workers[w].todo[0], workers[w].todo[1..];
      if g.events != [] {
        log := log + [Entry(w, g, outcome)];
        match outcome
        case Stored(rows) => written := written + rows;
        case _ =>
          flushErrors := flushErrors + 1;
          eventsLost := eventsLost + |g.events|;
      }
      workers := workers[w := if rest == [] then IDLE else Worker(workers[w].buf, workers[w].buffered, rest)];
    }
  }
}
