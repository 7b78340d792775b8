/** app/pipeline.py: writing a stream of events in chunks, with what the write upserts. */
module WriteStreams {
  import opened Prelude

  /** An event as it reaches the writer: a time if the source had one, and what it says. */
  datatype Arrival = Arrival(time: Option<int>, text: string)

  /** An event as it is stored. */
  datatype Event = Event(time: int, hash: string,
                         user: Option<string>, host: Option<string>, srcIp: Option<string>, dstIp: Option<string>)

  datatype Raised = Raised(rule: string, hash: string)

  /** An alert ready to insert; suppressed ones name the suppression that fired. */
  datatype Alert = Alert(raised: Raised, suppressedBy: Option<nat>)

  /**
   * What a batch is run with. `act` is the custom parser and the ingest actions (nothing when the
   * event is dropped), `tags` the CIM membership (nothing when resolving it fails), `raises` the
   * alerts emitted for an event before detection ended or failed, `suppression` the allowlist.
   */
  datatype Env = Env(fallback: int, act: (int, string) -> Option<Event>, tags: Event -> Option<seq<string>>,
                     raises: Event -> seq<Raised>, suppression: Raised -> Option<nat>,
                     tagsToDb: bool, ueba: bool, trackAlerts: bool)

  // ------------------------------------------------------- the stream without chunks

  function Acted(env: Env, a: Arrival): Option<Event> {
    env.act(if a.time.Some? then a.time.value else env.fallback, a.text)
  }

  function Kept(env: Env, arrivals: seq<Arrival>): seq<Event> {
    if arrivals == [] then []
    else Kept(env, arrivals[..|arrivals| - 1])
         + (match Acted(env, arrivals[|arrivals| - 1]) case None => [] case Some(e) => [e])
  }

  function Emit(env: Env, r: Raised): Alert { Alert(r, env.suppression(r)) }

  function EmitAll(env: Env, rs: seq<Raised>): seq<Alert> {
    if rs == [] then [] else EmitAll(env, rs[..|rs| - 1]) + [Emit(env, rs[|rs| - 1])]
  }

  function AlertsFor(env: Env, events: seq<Event>): seq<Alert> {
    if events == [] then []
    else AlertsFor(env, events[..|events| - 1]) + EmitAll(env, env.raises(events[|events| - 1]))
  }

  // ------------------------------------------------------- events, inserted once

  datatype Row = Row(event: Event, tags: Option<seq<string>>)

  type EventTable = map<(string, int), Row>

  function EventKey(e: Event): (string, int) { (e.hash, e.time) }

  /** `ON CONFLICT (dedup_hash, event_time) DO NOTHING`. */
  function AddRow(t: EventTable, r: Row): EventTable {
    if EventKey(r.event) in t then t else t[EventKey(r.event) := r]
  }

  function AddEvents(env: Env, t: EventTable, events: seq<Event>): EventTable {
    if events == [] then t
    else var e := events[|events| - 1];
         AddRow(AddEvents(env, t, events[..|events| - 1]), Row(e, env.tags(e)))
  }

  function AddRows(t: EventTable, rows: seq<Row>): EventTable {
    if rows == [] then t else AddRow(AddRows(t, rows[..|rows| - 1]), rows[|rows| - 1])
  }

  /** The row of one event: threaded membership is stored as given, missing membership is derived. */
  function RowFor(env: Env, e: Event, given: Option<seq<string>>): Row {
    Row(e, if given.Some? then given else env.tags(e))
  }

  function RowsFor(env: Env, chunk: seq<Event>, tags: Option<seq<Option<seq<string>>>>): seq<Row>
    requires tags.Some? ==> |tags.value| == |chunk|
  {
    seq(|chunk|, i requires 0 <= i < |chunk| => RowFor(env, chunk[i], if tags.Some? then tags.value[i] else None))
  }

  /** Aligned membership stores what deriving every row's own would. */
  lemma {:induction false} AlignedRows(
    env: Env, t: EventTable, chunk: seq<Event>, tags: Option<seq<Option<seq<string>>>>)
    requires tags.Some? ==> |tags.value| == |chunk|
    requires tags.Some? ==> forall i :: 0 <= i < |chunk| ==> tags.value[i].Some? ==> tags.value[i] == env.tags(chunk[i])
    ensures AddRows(t, RowsFor(env, chunk, tags)) == AddEvents(env, t, chunk)
  {
    if chunk != [] {
      var n := |chunk| - 1;
      var front := if tags.Some? then Some(tags.value[..n]) else None;
      AlignedRows(env, t, chunk[..n], front);
      assert RowsFor(env, chunk, tags)[..n] == RowsFor(env, chunk[..n], front);
    }
  }

  lemma {:induction false} AddEventsAppend(env: Env, t: EventTable, a: seq<Event>, b: seq<Event>)
    ensures AddEvents(env, t, a + b) == AddEvents(env, AddEvents(env, t, a), b)
  {
    if b == [] {
      assert a + b == a;
    } else {
      var n := |b| - 1;
      assert (a + b)[..|a| + n] == a + b[..n] && (a + b)[|a| + n] == b[n];
      AddEventsAppend(env, t, a, b[..n]);
    }
  }

  // ------------------------------------------------------- alerts, raised once per rule and event

  type AlertTable = map<Raised, Option<nat>>

  function AddAlerts(t: AlertTable, alerts: seq<Alert>): AlertTable {
    if alerts == [] then t
    else var a, before := alerts[|alerts| - 1], AddAlerts(t, alerts[..|alerts| - 1]);
         if a.raised in before then before else before[a.raised := a.suppressedBy]
  }

  /** The alerts the insert reports as new, in order. */
  function NewAlerts(t: AlertTable, alerts: seq<Alert>): seq<Alert> {
    if alerts == [] then []
    else var a, rest := alerts[|alerts| - 1], alerts[..|alerts| - 1];
         NewAlerts(t, rest) + (if a.raised in AddAlerts(t, rest) then [] else [a])
  }

  lemma {:induction false} AddAlertsAppend(t: AlertTable, a: seq<Alert>, b: seq<Alert>)
    ensures AddAlerts(t, a + b) == AddAlerts(AddAlerts(t, a), b)
    ensures NewAlerts(t, a + b) == NewAlerts(t, a) + NewAlerts(AddAlerts(t, a), b)
  {
    if b == [] {
      assert a + b == a;
    } else {
      var n := |b| - 1;
      assert (a + b)[..|a| + n] == a + b[..n] && (a + b)[|a| + n] == b[n];
      AddAlertsAppend(t, a, b[..n]);
    }
  }

  /** An identity is reported new exactly when it was not stored before, and then once. */
  lemma {:induction false} NewMeansNew(t: AlertTable, alerts: seq<Alert>, r: Raised)
    ensures r in AddAlerts(t, alerts) <==> r in t || exists a :: a in alerts && a.raised == r
    ensures (exists a :: a in NewAlerts(t, alerts) && a.raised == r) <==> r in AddAlerts(t, alerts) && r !in t
    ensures forall i, j :: 0 <= i < j < |NewAlerts(t, alerts)| && NewAlerts(t, alerts)[i].raised == r
              ==> NewAlerts(t, alerts)[j].raised != r
  {
    if alerts != [] {
      var n := |alerts| - 1;
      assert alerts == alerts[..n] + [alerts[n]];
      NewMeansNew(t, alerts[..n], r);
      var before, current := NewAlerts(t, alerts[..n]), NewAlerts(t, alerts);
      assert current == before || current == before + [alerts[n]];
      forall i, j | 0 <= i < j < |current| && current[i].raised == r ensures current[j].raised != r {
        assert current[i] in before;
      }
    }
  }

  function IsOpen(): Alert -> bool { (a: Alert) => a.suppressedBy.None? }

  // ------------------------------------------------------- suppression counters

  function Fired(id: nat, alerts: seq<Alert>): nat {
    if alerts == [] then 0
    else Fired(id, alerts[..|alerts| - 1]) + (if alerts[|alerts| - 1].suppressedBy == Some(id) then 1 else 0)
  }

  lemma {:induction false} FiredAppend(id: nat, a: seq<Alert>, b: seq<Alert>)
    ensures Fired(id, a + b) == Fired(id, a) + Fired(id, b)
  {
    if b == [] {
      assert a + b == a;
    } else {
      var n := |b| - 1;
      assert (a + b)[..|a| + n] == a + b[..n] && (a + b)[|a| + n] == b[n];
      FiredAppend(id, a, b[..n]);
    }
  }

  /** Every known suppression counts how often it fired. */
  function Bumped(hits: map<nat, nat>, alerts: seq<Alert>): map<nat, nat> {
    map id | id in hits :: hits[id] + Fired(id, alerts)
  }

  function CountIn(counts: map<nat, nat>, id: nat): nat { if id in counts then counts[id] else 0 }

  /** `bump_suppressions`: an id that is no longer there is an update of no row. */
  function BumpBy(hits: map<nat, nat>, counts: map<nat, nat>): map<nat, nat> {
    map id | id in hits :: hits[id] + CountIn(counts, id)
  }

  // ------------------------------------------------------- baselines

  /** First seen, last seen, how often. */
  datatype Seen = Seen(first: int, last: int, count: nat)

  type Node = (string, string)

  type Link = (string, string, string, string)

  predicate Present(o: Option<string>) { o.Some? && o.value != "" }

  function EntitiesOf(e: Event): seq<Node> {
    (if Present(e.user) then [("user", e.user.value)] else [])
    + (if Present(e.host) then [("host", e.host.value)] else [])
    + (if Present(e.srcIp) then [("ip", e.srcIp.value)] else [])
  }

  function LinksOf(e: Event): seq<Link> {
    (if Present(e.user) && Present(e.srcIp) then [("user", e.user.value, "ip", e.srcIp.value)] else [])
    + (if Present(e.user) && Present(e.host) then [("user", e.user.value, "host", e.host.value)] else [])
    + (if Present(e.host) && Present(e.dstIp) then [("host", e.host.value, "ip", e.dstIp.value)] else [])
  }

  /** Naming an entity: as user, as host or as source address. */
  function NamesNode(n: Node): Event -> bool {
    (e: Event) => n.1 != "" && ((n.0 == "user" && e.user == Some(n.1)) || (n.0 == "host" && e.host == Some(n.1))
                       || (n.0 == "ip" && e.srcIp == Some(n.1)))
  }

  /** Naming a link: the user with the source address or the host, or the host with the destination. */
  function NamesLink(l: Link): Event -> bool {
    (e: Event) => l.1 != "" && l.3 != ""
         && ((l.0 == "user" && l.2 == "ip" && e.user == Some(l.1) && e.srcIp == Some(l.3))
             || (l.0 == "user" && l.2 == "host" && e.user == Some(l.1) && e.host == Some(l.3))
             || (l.0 == "host" && l.2 == "ip" && e.host == Some(l.1) && e.dstIp == Some(l.3)))
  }

  lemma EntitiesMean(e: Event, n: Node)
    ensures n in EntitiesOf(e) <==> NamesNode(n)(e)
    ensures NoDuplicates(EntitiesOf(e))
  {
    assert "user"[0] != "host"[0] && "user"[0] != "ip"[0] && "host"[0] != "ip"[0];
  }

  lemma LinksMean(e: Event, l: Link)
    ensures l in LinksOf(e) <==> NamesLink(l)(e)
    ensures NoDuplicates(LinksOf(e))
  {
    assert "user"[0] != "host"[0] && "ip"[0] != "host"[0];
  }

  /** One sighting of a key at a time. */
  datatype Touch<K> = Touch(key: K, time: int)

  function Touches<K>(keys: seq<K>, time: int): seq<Touch<K>> {
    seq(|keys|, i requires 0 <= i < |keys| => Touch(keys[i], time))
  }

  /** All sightings in a list of events, `of` giving those of one. */
  function Sightings<K>(of: Event -> seq<Touch<K>>, events: seq<Event>): seq<Touch<K>> {
    if events == [] then [] else Sightings(of, events[..|events| - 1]) + of(events[|events| - 1])
  }

  function NodesIn(e: Event): seq<Touch<Node>> { Touches(EntitiesOf(e), e.time) }

  function LinksIn(e: Event): seq<Touch<Link>> { Touches(LinksOf(e), e.time) }

  function NodeTouches(events: seq<Event>): seq<Touch<Node>> { Sightings(NodesIn, events) }

  function LinkTouches(events: seq<Event>): seq<Touch<Link>> { Sightings(LinksIn, events) }

  function Min(a: int, b: int): int { if b < a then b else a }

  function Max(a: int, b: int): int { if b > a then b else a }

  /** LEAST, GREATEST and the sum. */
  function Join(a: Seen, b: Seen): Seen {
    Seen(Min(a.first, b.first), Max(a.last, b.last), a.count + b.count)
  }

  function Put<K>(t: map<K, Seen>, k: K, s: Seen): map<K, Seen> {
    t[k := if k in t then Join(t[k], s) else s]
  }

  function See<K>(t: map<K, Seen>, ts: seq<Touch<K>>): map<K, Seen> {
    if ts == [] then t
    else Put(See(t, ts[..|ts| - 1]), ts[|ts| - 1].key, Seen(ts[|ts| - 1].time, ts[|ts| - 1].time, 1))
  }

  /** One `ON CONFLICT DO UPDATE` per row of the aggregate. */
  function Upsert<K>(t: map<K, Seen>, rows: map<K, Seen>): map<K, Seen> {
    map k | k in t.Keys + rows.Keys ::
      if k !in rows then t[k] else if k in t then Join(t[k], rows[k]) else rows[k]
  }

  lemma UpsertPut<K>(t: map<K, Seen>, rows: map<K, Seen>, k: K, s: Seen)
    ensures Upsert(t, Put(rows, k, s)) == Put(Upsert(t, rows), k, s)
  {
    var l, r := Upsert(t, Put(rows, k, s)), Put(Upsert(t, rows), k, s);
    assert l.Keys == r.Keys;
    forall x | x in l.Keys ensures l[x] == r[x] {}
  }

  /** Aggregating a chunk and upserting the aggregate is upserting every sighting. */
  lemma {:induction false} AggregateThenUpsert<K>(t: map<K, Seen>, ts: seq<Touch<K>>)
    ensures Upsert(t, See(map[], ts)) == See(t, ts)
  {
    if ts == [] {
      assert Upsert(t, map[]) == t;
    } else {
      var n := |ts| - 1;
      AggregateThenUpsert(t, ts[..n]);
      UpsertPut(t, See(map[], ts[..n]), ts[n].key, Seen(ts[n].time, ts[n].time, 1));
    }
  }

  lemma {:induction false} SeeAppend<K>(t: map<K, Seen>, a: seq<Touch<K>>, b: seq<Touch<K>>)
    ensures See(t, a + b) == See(See(t, a), b)
  {
    if b == [] {
      assert a + b == a;
    } else {
      var n := |b| - 1;
      assert (a + b)[..|a| + n] == a + b[..n] && (a + b)[|a| + n] == b[n];
      SeeAppend(t, a, b[..n]);
    }
  }

  /** How often and when a key is sighted. */
  function Times<K(==)>(k: K, ts: seq<Touch<K>>): seq<int> {
    if ts == [] then []
    else Times(k, ts[..|ts| - 1]) + (if ts[|ts| - 1].key == k then [ts[|ts| - 1].time] else [])
  }

  /** The table's row for a key: earliest and latest of the old row and all sightings, and their number. */
  lemma {:induction false} SeeMeans<K>(t: map<K, Seen>, ts: seq<Touch<K>>, k: K)
    ensures var r := See(t, ts); var times := Times(k, ts);
            && (k in r <==> k in t || times != [])
            && (k in r ==>
                  && r[k].count == (if k in t then t[k].count else 0) + |times|
                  && (forall x :: x in times ==> r[k].first <= x <= r[k].last)
                  && (k in t ==> r[k].first <= t[k].first && t[k].last <= r[k].last)
                  && (r[k].first in times || (k in t && r[k].first == t[k].first))
                  && (r[k].last in times || (k in t && r[k].last == t[k].last)))
  {
    if ts != [] {
      SeeMeans(t, ts[..|ts| - 1], k);
    }
  }

  // ------------------------------------------------------- all tables

  datatype Tables = Tables(events: EventTable, alerts: AlertTable, hits: map<nat, nat>,
                           entities: map<Node, Seen>, links: map<Link, Seen>)

  /** What writing these events and these alerts does, whatever the chunks. */
  function Written(env: Env, t: Tables, events: seq<Event>, alerts: seq<Alert>): Tables {
    Tables(AddEvents(env, t.events, events), AddAlerts(t.alerts, alerts), Bumped(t.hits, alerts),
           if env.ueba then See(t.entities, NodeTouches(events)) else t.entities,
           if env.ueba then See(t.links, LinkTouches(events)) else t.links)
  }

  lemma {:induction false} SightingsAppend<K>(of: Event -> seq<Touch<K>>, a: seq<Event>, b: seq<Event>)
    ensures Sightings(of, a + b) == Sightings(of, a) + Sightings(of, b)
  {
    if b == [] {
      assert a + b == a;
    } else {
      var n := |b| - 1;
      assert (a + b)[..|a| + n] == a + b[..n] && (a + b)[|a| + n] == b[n];
      SightingsAppend(of, a, b[..n]);
      Assoc(Sightings(of, a), Sightings(of, b[..n]), of(b[n]));
    }
  }

  lemma BumpedAppend(hits: map<nat, nat>, a: seq<Alert>, b: seq<Alert>)
    ensures Bumped(hits, a + b) == Bumped(Bumped(hits, a), b)
  {
    forall id: nat | id in hits ensures Fired(id, a + b) == Fired(id, a) + Fired(id, b) { FiredAppend(id, a, b); }
  }

  /** Writing two chunks one after the other is writing their concatenation. */
  lemma ChunksCompose(env: Env, t: Tables, a: seq<Event>, x: seq<Alert>, b: seq<Event>, y: seq<Alert>)
    ensures Written(env, Written(env, t, a, x), b, y) == Written(env, t, a + b, x + y)
  {
    AddEventsAppend(env, t.events, a, b);
    AddAlertsAppend(t.alerts, x, y);
    BumpedAppend(t.hits, x, y);
    SightingsAppend(NodesIn, a, b);
    SightingsAppend(LinksIn, a, b);
    SeeAppend(t.entities, NodeTouches(a), NodeTouches(b));
    SeeAppend(t.links, LinkTouches(a), LinkTouches(b));
  }

  // ------------------------------------------------------- the loops

  /** The loop of `_upsert_baselines` over one kind of key. */
  method Aggregate<K(==)>(rows: map<K, Seen>, keys: seq<K>, time: int) returns (r: map<K, Seen>)
    ensures r == See(rows, Touches(keys, time))
  {
    r := rows;
    var ts := Touches(keys, time);
    for i := 0 to |keys|
      invariant r == See(rows, ts[..i])
    {
      assert ts[..i + 1][..i] == ts[..i];
      if keys[i] !in r {
        r := r[keys[i] := Seen(time, time, 1)];
      } else {
        var s := r[keys[i]];
        r := r[keys[i] := Seen(Min(s.first, time), Max(s.last, time), s.count + 1)];
      }
    }
    assert ts[..|keys|] == ts;
  }

  class Store {
    var events: EventTable
    var alerts: AlertTable
    var hits: map<nat, nat>
    var entities: map<Node, Seen>
    var links: map<Link, Seen>

    function Now(): Tables
      reads this
    {
      Tables(events, alerts, hits, entities, links)
    }

    /** `insert_events`: refuses membership that is not index-aligned; a row without membership derives its own. */
    method InsertEvents(env: Env, chunk: seq<Event>, tags: Option<seq<Option<seq<string>>>>) returns (ok: bool)
      modifies this`events
      ensures ok <==> chunk == [] || tags.None? || |tags.value| == |chunk|
      ensures !ok || chunk == [] ==> events == old(events)
      ensures ok && chunk != [] ==> events == AddRows(old(events), RowsFor(env, chunk, tags))
    {
      if chunk == [] {
        return true;
      }
      if tags.Some? && |tags.value| != |chunk| {
        return false;
      }
      var rows := RowsFor(env, chunk, tags);
      for i := 0 to |rows|
        invariant events == AddRows(old(events), rows[..i])
      {
        assert rows[..i + 1][..i] == rows[..i] && rows[..i + 1][i] == rows[i];
        events := AddRow(events, rows[i]);
      }
      assert rows[..|rows|] == rows;
      return true;
    }

    /** `insert_alerts`; what is new is reported only when asked for. */
    method InsertAlerts(pending: seq<Alert>, returnInserted: bool) returns (added: seq<Alert>)
      modifies this`alerts
      ensures alerts == AddAlerts(old(alerts), pending)
      ensures added == if returnInserted then NewAlerts(old(alerts), pending) else []
    {
      added := [];
      for i := 0 to |pending|
        invariant alerts == AddAlerts(old(alerts), pending[..i])
        invariant added == if returnInserted then NewAlerts(old(alerts), pending[..i]) else []
      {
        assert pending[..i + 1][..i] == pending[..i] && pending[..i + 1][i] == pending[i];
        if pending[i].raised !in alerts {
          alerts := alerts[pending[i].raised := pending[i].suppressedBy];
          if returnInserted {
            added := added + [pending[i]];
          }
        }
      }
      assert pending[..|pending|] == pending;
    }

    /** `_upsert_baselines`. */
    method UpsertBaselines(chunk: seq<Event>)
      modifies this`entities, this`links
      ensures entities == See(old(entities), NodeTouches(chunk))
      ensures links == See(old(links), LinkTouches(chunk))
    {
      var ents: map<Node, Seen>, lnks: map<Link, Seen> := map[], map[];
      for i := 0 to |chunk|
        invariant ents == See(map[], NodeTouches(chunk[..i]))
        invariant lnks == See(map[], LinkTouches(chunk[..i]))
        invariant entities == old(entities) && links == old(links)
      {
        var e := chunk[i];
        assert chunk[..i + 1][..i] == chunk[..i] && chunk[..i + 1][i] == e;
        SeeAppend<Node>(map[], NodeTouches(chunk[..i]), Touches(EntitiesOf(e), e.time));
        SeeAppend<Link>(map[], LinkTouches(chunk[..i]), Touches(LinksOf(e), e.time));
        ents := Aggregate(ents, EntitiesOf(e), e.time);
        lnks := Aggregate(lnks, LinksOf(e), e.time);
      }
      assert chunk[..|chunk|] == chunk;
      AggregateThenUpsert(entities, NodeTouches(chunk));
      AggregateThenUpsert(links, LinkTouches(chunk));
      entities, links := Upsert(entities, ents), Upsert(links, lnks);
    }

    /** `flush`. */
    method Flush(
      env: Env, chunk: seq<Event>, tags: seq<Option<seq<string>>>, pending: seq<Alert>, suppHits: map<nat, nat>)
      returns (added: seq<Alert>)
      requires Aligned(env, chunk, tags) && Tallied(suppHits, pending)
      modifies this
      ensures Now() == Written(env, old(Now()), chunk, pending)
      ensures added == if env.trackAlerts then NewAlerts(old(alerts), pending) else []
    {
      AlignedRows(env, events, chunk, if env.tagsToDb then Some(tags) else None);
      var ok := InsertEvents(env, chunk, if env.tagsToDb then Some(tags) else None);
      assert ok;
      added := InsertAlerts(pending, env.trackAlerts);
      assert BumpBy(hits, suppHits) == Bumped(hits, pending);
      hits := BumpBy(hits, suppHits);
      if env.ueba {
        UpsertBaselines(chunk);
      }
    }
  }

  /** The counters not yet written are those of the alerts not yet written. */
  ghost predicate Tallied(suppHits: map<nat, nat>, pending: seq<Alert>) {
    forall id: nat :: CountIn(suppHits, id) == Fired(id, pending)
  }

  /** The tags are index-aligned with the chunk. */
  ghost predicate Aligned(env: Env, chunk: seq<Event>, tags: seq<Option<seq<string>>>) {
    && |tags| == |chunk|
    && forall i :: 0 <= i < |chunk| ==> tags[i] == if env.tagsToDb then env.tags(chunk[i]) else None
  }

  /** `emit`, for the alerts of one event in turn. */
  method Queue(env: Env, rs: seq<Raised>, pending: seq<Alert>, suppHits: map<nat, nat>)
    returns (p: seq<Alert>, hits: map<nat, nat>)
    requires Tallied(suppHits, pending)
    ensures p == pending + EmitAll(env, rs)
    ensures Tallied(hits, p)
  {
    p, hits := pending, suppHits;
    for i := 0 to |rs|
      invariant p == pending + EmitAll(env, rs[..i])
      invariant Tallied(hits, p)
    {
      assert rs[..i + 1][..i] == rs[..i] && rs[..i + 1][i] == rs[i];
      Assoc(pending, EmitAll(env, rs[..i]), [Emit(env, rs[i])]);
      var a := Emit(env, rs[i]);
      assert (p + [a])[..|p|] == p;
      if a.suppressedBy.Some? {
        hits := hits[a.suppressedBy.value := CountIn(hits, a.suppressedBy.value) + 1];
      }
      p := p + [a];
    }
    assert rs[..|rs|] == rs;
  }

  datatype WriteResult = WriteResult(total: nat, alerts: seq<Alert>, dropped: nat)

  lemma KeptSnoc(env: Env, arrivals: seq<Arrival>, i: nat)
    requires i < |arrivals|
    ensures Kept(env, arrivals[..i + 1])
         == Kept(env, arrivals[..i]) + (match Acted(env, arrivals[i]) case None => [] case Some(e) => [e])
  {
    assert arrivals[..i + 1][..i] == arrivals[..i];
  }

  /** One more arrival joins the buffered chunk, or is dropped. */
  lemma KeptNext(env: Env, arrivals: seq<Arrival>, i: nat, done: seq<Event>, chunk: seq<Event>)
    requires i < |arrivals| && done + chunk == Kept(env, arrivals[..i])
    ensures match Acted(env, arrivals[i])
            case None => done + chunk == Kept(env, arrivals[..i + 1])
            case Some(e) =>
              && done + (chunk + [e]) == Kept(env, arrivals[..i + 1])
              && (done + (chunk + [e])) + [] == Kept(env, arrivals[..i + 1])
  {
    KeptSnoc(env, arrivals, i);
    if Acted(env, arrivals[i]).Some? { Assoc(done, chunk, [Acted(env, arrivals[i]).value]); }
  }

  lemma AlertsSnoc(env: Env, events: seq<Event>, e: Event)
    ensures AlertsFor(env, events + [e]) == AlertsFor(env, events) + EmitAll(env, env.raises(e))
  {
    assert (events + [e])[..|events|] == events;
  }

  lemma {:induction false} AlertsForAppend(env: Env, a: seq<Event>, b: seq<Event>)
    ensures AlertsFor(env, a + b) == AlertsFor(env, a) + AlertsFor(env, b)
  {
    if b == [] {
      assert a + b == a;
    } else {
      var n := |b| - 1;
      assert (a + b)[..|a| + n] == a + b[..n] && (a + b)[|a| + n] == b[n];
      AlertsForAppend(env, a, b[..n]);
      Assoc(AlertsFor(env, a), AlertsFor(env, b[..n]), EmitAll(env, env.raises(b[n])));
    }
  }

  /** Chunks already flushed, with the alerts reported new by them. */
  ghost predicate FlushedSoFar(env: Env, start: Tables, t: Tables, done: seq<Event>, newAlerts: seq<Alert>) {
    && t == Written(env, start, done, AlertsFor(env, done))
    && newAlerts == if env.trackAlerts then NewAlerts(start.alerts, AlertsFor(env, done)) else []
  }

  /** What is buffered beside a chunk: its tags, its alerts and their suppressions. */
  ghost predicate Buffered(
    env: Env, chunk: seq<Event>, tags: seq<Option<seq<string>>>, pending: seq<Alert>, suppHits: map<nat, nat>)
  {
    Aligned(env, chunk, tags) && pending == AlertsFor(env, chunk) && Tallied(suppHits, pending)
  }

  /** A kept event joins the chunk, its alerts and its tags the lists beside it. */
  method Buffer(
    env: Env, e: Event, chunk: seq<Event>, tags: seq<Option<seq<string>>>, pending: seq<Alert>, suppHits: map<nat, nat>)
    returns (tags': seq<Option<seq<string>>>, pending': seq<Alert>, suppHits': map<nat, nat>)
    requires Buffered(env, chunk, tags, pending, suppHits)
    ensures Buffered(env, chunk + [e], tags', pending', suppHits')
  {
    AlertsSnoc(env, chunk, e);
    pending', suppHits' := Queue(env, env.raises(e), pending, suppHits);
    tags' := tags + [if env.tagsToDb then env.tags(e) else None];
  }

  /** The flush of one chunk after the chunks before it. */
  method FlushChunk(
    env: Env, db: Store, chunk: seq<Event>, tags: seq<Option<seq<string>>>, pending: seq<Alert>,
    suppHits: map<nat, nat>, newAlerts: seq<Alert>, ghost start: Tables, ghost done: seq<Event>)
    returns (r: seq<Alert>)
    requires Buffered(env, chunk, tags, pending, suppHits)
    requires FlushedSoFar(env, start, db.Now(), done, newAlerts)
    modifies db
    ensures FlushedSoFar(env, start, db.Now(), done + chunk, r)
  {
    AlertsForAppend(env, done, chunk);
    ChunksCompose(env, start, done, AlertsFor(env, done), chunk, pending);
    AddAlertsAppend(start.alerts, AlertsFor(env, done), pending);
    var added := db.Flush(env, chunk, tags, pending, suppHits);
    r := newAlerts + added;
  }

  lemma NothingBuffered(env: Env)
    ensures Buffered(env, [], [], [], map[])
  {}

  lemma NothingFlushed(env: Env, t: Tables)
    ensures FlushedSoFar(env, t, t, [], [])
  {
    assert Bumped(t.hits, []) == t.hits;
  }

  /**
   * `write_stream`: whatever the chunk size (the program's is 5000), the tables end as if every kept
   * event had been written on its own, the alerts handed back are the newly raised ones that are not
   * suppressed, and every arrival is either kept or counted as dropped.
   */
  method WriteStream(env: Env, db: Store, arrivals: seq<Arrival>, chunkSize: nat) returns (r: WriteResult)
    modifies db
    ensures var kept := Kept(env, arrivals);
            && db.Now() == Written(env, old(db.Now()), kept, AlertsFor(env, kept))
            && r.total == |arrivals| && r.dropped == |arrivals| - |kept|
            && r.alerts == if env.trackAlerts
                           then Filter(IsOpen(), NewAlerts(old(db.alerts), AlertsFor(env, kept)))
                           else []
  {
    var total, dropped := 0, 0;
    var chunk: seq<Event>, chunkTags: seq<Option<seq<string>>>, pending: seq<Alert> := [], [], [];
    var newAlerts: seq<Alert>, suppHits: map<nat, nat> := [], map[];
    ghost var start, done: seq<Event> := db.Now(), [];
    NothingBuffered(env);
    NothingFlushed(env, start);
    for i := 0 to |arrivals|
      invariant done + chunk == Kept(env, arrivals[..i])
      invariant total == i && dropped == i - |done + chunk|
      invariant Buffered(env, chunk, chunkTags, pending, suppHits)
      invariant FlushedSoFar(env, start, db.Now(), done, newAlerts)
    {
      total := total + 1;
      KeptNext(env, arrivals, i, done, chunk);
      var verdict := Acted(env, arrivals[i]);
      if verdict.None? {
        dropped := dropped + 1;
        continue;
      }
      chunkTags, pending, suppHits := Buffer(env, verdict.value, chunk, chunkTags, pending, suppHits);
      chunk := chunk + [verdict.value];
      if |chunk| >= chunkSize {
        newAlerts := FlushChunk(env, db, chunk, chunkTags, pending, suppHits, newAlerts, start, done);
        done := done + chunk;
        chunk, chunkTags, pending, suppHits := [], [], [], map[];
      }
    }
    assert arrivals[..|arrivals|] == arrivals;
    if chunk != [] || pending != [] {
      newAlerts := FlushChunk(env, db, chunk, chunkTags, pending, suppHits, newAlerts, start, done);
    } else {
      assert done + chunk == done;
    }
    r := WriteResult(total, Filter(IsOpen(), newAlerts), dropped);
  }

  // ------------------------------------------------------- what the written tables mean

  /**
   * Every kept event is stored under its identity,
   * and every row not there before is a kept event with its own tags.
   */
  lemma {:induction false} RowsMean(env: Env, t: EventTable, events: seq<Event>, k: (string, int))
    ensures var r := AddEvents(env, t, events);
            && (k in r <==> k in t || exists e :: e in events && EventKey(e) == k)
            && (k in t ==> r[k] == t[k])
            && (k in r && k !in t
                ==> r[k].event in events && EventKey(r[k].event) == k && r[k].tags == env.tags(r[k].event))
  {
    if events != [] {
      var n := |events| - 1;
      assert events == events[..n] + [events[n]];
      RowsMean(env, t, events[..n], k);
    }
  }

  lemma {:induction false} KeptAppend(env: Env, a: seq<Arrival>, b: seq<Arrival>)
    ensures Kept(env, a + b) == Kept(env, a) + Kept(env, b)
  {
    if b == [] {
      assert a + b == a;
    } else {
      var n := |b| - 1;
      assert (a + b)[..|a| + n] == a + b[..n] && (a + b)[|a| + n] == b[n];
      KeptAppend(env, a, b[..n]);
    }
  }

  function WriteAll(env: Env, t: Tables, arrivals: seq<Arrival>): Tables {
    Written(env, t, Kept(env, arrivals), AlertsFor(env, Kept(env, arrivals)))
  }

  /** However a stream is cut into writes, the tables end the same. */
  lemma StreamsCompose(env: Env, t: Tables, a: seq<Arrival>, b: seq<Arrival>)
    ensures WriteAll(env, t, a + b) == WriteAll(env, WriteAll(env, t, a), b)
  {
    KeptAppend(env, a, b);
    AlertsForAppend(env, Kept(env, a), Kept(env, b));
    ChunksCompose(env, t, Kept(env, a), AlertsFor(env, Kept(env, a)), Kept(env, b), AlertsFor(env, Kept(env, b)));
  }

  lemma {:induction false} AddKnown(env: Env, t: EventTable, events: seq<Event>)
    requires forall e :: e in events ==> EventKey(e) in t
    ensures AddEvents(env, t, events) == t
  {
    if events != [] {
      assert events[|events| - 1] in events;
      AddKnown(env, t, events[..|events| - 1]);
    }
  }

  lemma {:induction false} RaiseKnown(t: AlertTable, alerts: seq<Alert>)
    requires forall a :: a in alerts ==> a.raised in t
    ensures AddAlerts(t, alerts) == t && NewAlerts(t, alerts) == []
  {
    if alerts != [] {
      assert alerts[|alerts| - 1] in alerts;
      RaiseKnown(t, alerts[..|alerts| - 1]);
    }
  }

  lemma {:induction false} FallbackUnused(env: Env, other: int, arrivals: seq<Arrival>)
    requires forall a :: a in arrivals ==> a.time.Some?
    ensures Kept(env.(fallback := other), arrivals) == Kept(env, arrivals)
  {
    if arrivals != [] {
      assert arrivals[|arrivals| - 1] in arrivals;
      FallbackUnused(env, other, arrivals[..|arrivals| - 1]);
    }
  }

  /**
   * Writing a stream again, at any later time, stores no event and raises no alert, provided every
   * arrival carries its own time. Suppression counters and baselines do count it again.
   */
  lemma WriteAgain(env: Env, t: Tables, arrivals: seq<Arrival>, later: int)
    requires forall a :: a in arrivals ==> a.time.Some?
    ensures var after := WriteAll(env, t, arrivals); var again := Kept(env.(fallback := later), arrivals);
            && AddEvents(env, after.events, again) == after.events
            && AddAlerts(after.alerts, AlertsFor(env, again)) == after.alerts
            && NewAlerts(after.alerts, AlertsFor(env, again)) == []
  {
    FallbackUnused(env, later, arrivals);
    var kept, after := Kept(env, arrivals), WriteAll(env, t, arrivals);
    var alerts := AlertsFor(env, kept);
    forall e | e in kept ensures EventKey(e) in after.events { RowsMean(env, t.events, kept, EventKey(e)); }
    AddKnown(env, after.events, kept);
    forall a | a in alerts ensures a.raised in after.alerts { NewMeansNew(t.alerts, alerts, a.raised); }
    RaiseKnown(after.alerts, alerts);
  }

  // ------------------------------------------------------- what the other tables mean

  lemma {:induction false} EmittedAre(env: Env, rs: seq<Raised>, a: Alert)
    ensures a in EmitAll(env, rs) <==> a.raised in rs && a.suppressedBy == env.suppression(a.raised)
  {
    if rs != [] {
      var n := |rs| - 1;
      EmittedAre(env, rs[..n], a);
      assert rs == rs[..n] + [rs[n]];
    }
  }

  /** Some kept event raises it. */
  ghost predicate RaisedBy(env: Env, events: seq<Event>, r: Raised) {
    exists e :: e in events && r in env.raises(e)
  }

  lemma {:induction false} AlertsAre(env: Env, events: seq<Event>, a: Alert)
    ensures a in AlertsFor(env, events)
       <==> RaisedBy(env, events, a.raised) && a.suppressedBy == env.suppression(a.raised)
  {
    if events != [] {
      var n := |events| - 1;
      AlertsAre(env, events[..n], a);
      EmittedAre(env, env.raises(events[n]), a);
      assert events == events[..n] + [events[n]];
      if RaisedBy(env, events[..n], a.raised) {
        var e :| e in events[..n] && a.raised in env.raises(e);
        assert e in events;
      }
      assert events[n] in events;
    }
  }

  lemma {:induction false} StoredWithItsRule(t: AlertTable, alerts: seq<Alert>, r: Raised)
    ensures var after := AddAlerts(t, alerts);
            && (r in t ==> r in after && after[r] == t[r])
            && (r in after && r !in t ==> Alert(r, after[r]) in alerts)
  {
    if alerts != [] {
      var n := |alerts| - 1;
      StoredWithItsRule(t, alerts[..n], r);
      assert alerts == alerts[..n] + [alerts[n]];
    }
  }

  /** An alert is stored exactly when it was there or some kept event raises it, a new one with its suppression. */
  lemma AlertsMean(env: Env, t: AlertTable, events: seq<Event>, r: Raised)
    ensures var after := AddAlerts(t, AlertsFor(env, events));
            && (r in after <==> r in t || RaisedBy(env, events, r))
            && (r in t ==> after[r] == t[r])
            && (r in after && r !in t ==> after[r] == env.suppression(r))
  {
    var alerts, after := AlertsFor(env, events), AddAlerts(t, AlertsFor(env, events));
    NewMeansNew(t, alerts, r);
    StoredWithItsRule(t, alerts, r);
    AlertsAre(env, events, Alert(r, env.suppression(r)));
    if a :| a in alerts && a.raised == r { AlertsAre(env, events, a); }
    if r in after && r !in t { AlertsAre(env, events, Alert(r, after[r])); }
  }

  lemma {:induction false} NewAreAlerts(t: AlertTable, alerts: seq<Alert>, a: Alert)
    requires a in NewAlerts(t, alerts)
    ensures a in alerts
  {
    var n := |alerts| - 1;
    assert alerts == alerts[..n] + [alerts[n]];
    if a in NewAlerts(t, alerts[..n]) { NewAreAlerts(t, alerts[..n], a); }
  }

  /** Handed back are exactly the alerts that some kept event raises, were not stored and are not suppressed. */
  lemma ReportedMean(env: Env, t: AlertTable, events: seq<Event>, a: Alert)
    ensures a in Filter(IsOpen(), NewAlerts(t, AlertsFor(env, events))) <==>
              && RaisedBy(env, events, a.raised) && a.raised !in t
              && env.suppression(a.raised) == None && a.suppressedBy == None
  {
    var alerts := AlertsFor(env, events);
    FilterIn(IsOpen(), NewAlerts(t, alerts));
    NewMeansNew(t, alerts, a.raised);
    AlertsAre(env, events, a);
    if a in NewAlerts(t, alerts) { NewAreAlerts(t, alerts, a); }
    if RaisedBy(env, events, a.raised) && a.raised !in t {
      AlertsAre(env, events, Alert(a.raised, env.suppression(a.raised)));
      var b :| b in NewAlerts(t, alerts) && b.raised == a.raised;
      NewAreAlerts(t, alerts, b);
      AlertsAre(env, events, b);
    }
  }

  /** What the kept events raise, in order, repetitions included. */
  function AllRaised(env: Env, events: seq<Event>): seq<Raised> {
    if events == [] then [] else AllRaised(env, events[..|events| - 1]) + env.raises(events[|events| - 1])
  }

  function HitBy(env: Env, id: nat): Raised -> bool { r => env.suppression(r) == Some(id) }

  lemma {:induction false} FiredIsHits(env: Env, id: nat, rs: seq<Raised>)
    ensures Fired(id, EmitAll(env, rs)) == |Filter(HitBy(env, id), rs)|
  {
    if rs != [] {
      var n := |rs| - 1;
      FiredIsHits(env, id, rs[..n]);
      assert rs == rs[..n] + [rs[n]];
      FilterAppend(HitBy(env, id), rs[..n], [rs[n]]);
      FiredAppend(id, EmitAll(env, rs[..n]), [Emit(env, rs[n])]);
      assert [Emit(env, rs[n])][..0] == [] && [rs[n]][1..] == [];
    }
  }

  lemma {:induction false} FiredOverEvents(env: Env, id: nat, events: seq<Event>)
    ensures Fired(id, AlertsFor(env, events)) == |Filter(HitBy(env, id), AllRaised(env, events))|
  {
    if events != [] {
      var n := |events| - 1;
      FiredOverEvents(env, id, events[..n]);
      FiredIsHits(env, id, env.raises(events[n]));
      FiredAppend(id, AlertsFor(env, events[..n]), EmitAll(env, env.raises(events[n])));
      FilterAppend(HitBy(env, id), AllRaised(env, events[..n]), env.raises(events[n]));
    }
  }

  /** A suppression's counter rises by the number of alerts it hides, repeated ones included. */
  lemma HitsMean(env: Env, hits: map<nat, nat>, events: seq<Event>, id: nat)
    ensures var after := Bumped(hits, AlertsFor(env, events));
            && (id in after <==> id in hits)
            && (id in hits ==> after[id] == hits[id] + |Filter(HitBy(env, id), AllRaised(env, events))|)
  {
    FiredOverEvents(env, id, events);
  }

  lemma {:induction false} TimesAppend<K>(k: K, a: seq<Touch<K>>, b: seq<Touch<K>>)
    ensures Times(k, a + b) == Times(k, a) + Times(k, b)
  {
    if b == [] {
      assert a + b == a;
    } else {
      var n := |b| - 1;
      assert (a + b)[..|a| + n] == a + b[..n] && (a + b)[|a| + n] == b[n];
      TimesAppend(k, a, b[..n]);
      Assoc(Times(k, a), Times(k, b[..n]), if b[n].key == k then [b[n].time] else []);
    }
  }

  lemma {:induction false} TimesOfTouches<K>(k: K, keys: seq<K>, time: int)
    requires NoDuplicates(keys)
    ensures Times(k, Touches(keys, time)) == if k in keys then [time] else []
  {
    if keys != [] {
      var n := |keys| - 1;
      assert keys == keys[..n] + [keys[n]] && keys[n] !in keys[..n];
      assert Touches(keys, time)[..n] == Touches(keys[..n], time);
      TimesOfTouches(k, keys[..n], time);
    }
  }

  /** The times at which the events that name it were seen, one for each. */
  function TimesSeen(names: Event -> bool, events: seq<Event>): seq<int> {
    Map((e: Event) => e.time, Filter(names, events))
  }

  lemma TimesSeenSnoc(names: Event -> bool, events: seq<Event>, e: Event)
    ensures TimesSeen(names, events + [e]) == TimesSeen(names, events) + (if names(e) then [e.time] else [])
  {
    FilterAppend(names, events, [e]);
    assert [e][1..] == [];
  }

  lemma NodeSeenOnce(e: Event, n: Node)
    ensures Times(n, NodesIn(e)) == if NamesNode(n)(e) then [e.time] else []
  {
    EntitiesMean(e, n);
    TimesOfTouches(n, EntitiesOf(e), e.time);
  }

  lemma LinkSeenOnce(e: Event, l: Link)
    ensures Times(l, LinksIn(e)) == if NamesLink(l)(e) then [e.time] else []
  {
    LinksMean(e, l);
    TimesOfTouches(l, LinksOf(e), e.time);
  }

  lemma TouchesSnoc(events: seq<Event>, e: Event)
    ensures NodeTouches(events + [e]) == NodeTouches(events) + NodesIn(e)
    ensures LinkTouches(events + [e]) == LinkTouches(events) + LinksIn(e)
  {
    assert (events + [e])[..|events|] == events;
  }

  lemma NodeNext(front: seq<Event>, e: Event, n: Node)
    requires Times(n, NodeTouches(front)) == TimesSeen(NamesNode(n), front)
    ensures Times(n, NodeTouches(front + [e])) == TimesSeen(NamesNode(n), front + [e])
  {
    TouchesSnoc(front, e);
    TimesAppend(n, NodeTouches(front), NodesIn(e));
    NodeSeenOnce(e, n);
    TimesSeenSnoc(NamesNode(n), front, e);
  }

  lemma LinkNext(front: seq<Event>, e: Event, l: Link)
    requires Times(l, LinkTouches(front)) == TimesSeen(NamesLink(l), front)
    ensures Times(l, LinkTouches(front + [e])) == TimesSeen(NamesLink(l), front + [e])
  {
    TouchesSnoc(front, e);
    TimesAppend(l, LinkTouches(front), LinksIn(e));
    LinkSeenOnce(e, l);
    TimesSeenSnoc(NamesLink(l), front, e);
  }

  /** A baseline's sightings are the times of exactly the events that name the entity, one for each. */
  lemma {:induction false} NodeSightings(events: seq<Event>, n: Node)
    ensures Times(n, NodeTouches(events)) == TimesSeen(NamesNode(n), events)
  {
    if events != [] {
      var front, e := events[..|events| - 1], events[|events| - 1];
      assert events == front + [e];
      NodeSightings(front, n);
      NodeNext(front, e, n);
    }
  }

  lemma {:induction false} LinkSightings(events: seq<Event>, l: Link)
    ensures Times(l, LinkTouches(events)) == TimesSeen(NamesLink(l), events)
  {
    if events != [] {
      var front, e := events[..|events| - 1], events[|events| - 1];
      assert events == front + [e];
      LinkSightings(front, l);
      LinkNext(front, e, l);
    }
  }

  /** A baseline: earliest and latest of the old row and the given times, and their number on top of the old one. */
  ghost predicate Baseline<K>(t: map<K, Seen>, after: map<K, Seen>, k: K, times: seq<int>) {
    && (k in after <==> k in t || times != [])
    && (k in after ==>
          && after[k].count == (if k in t then t[k].count else 0) + |times|
          && (forall x :: x in times ==> after[k].first <= x <= after[k].last)
          && (k in t ==> after[k].first <= t[k].first && t[k].last <= after[k].last)
          && (after[k].first in times || (k in t && after[k].first == t[k].first))
          && (after[k].last in times || (k in t && after[k].last == t[k].last)))
  }

  /** With baselines maintained every entity and link counts the kept events that name it; without, none moves. */
  lemma BaselinesMean(env: Env, t: Tables, events: seq<Event>, alerts: seq<Alert>, n: Node, l: Link)
    ensures var after := Written(env, t, events, alerts);
            && (env.ueba ==> Baseline(t.entities, after.entities, n, TimesSeen(NamesNode(n), events)))
            && (env.ueba ==> Baseline(t.links, after.links, l, TimesSeen(NamesLink(l), events)))
            && (!env.ueba ==> after.entities == t.entities && after.links == t.links)
  {
    NodeSightings(events, n);
    LinkSightings(events, l);
    SeeMeans(t.entities, NodeTouches(events), n);
    SeeMeans(t.links, LinkTouches(events), l);
  }

  /** The arrival with the fallback time filled in. */
  function Timed(fallback: int): Arrival -> Arrival {
    (a: Arrival) => if a.time.None? then Arrival(Some(fallback), a.text) else a
  }

  /** The fallback time is for arrivals without a time and for no others. */
  lemma {:induction false} FallbackOnlyWhereMissing(env: Env, arrivals: seq<Arrival>)
    ensures Kept(env, arrivals) == Kept(env, Map(Timed(env.fallback), arrivals))
  {
    if arrivals != [] {
      var n := |arrivals| - 1;
      FallbackOnlyWhereMissing(env, arrivals[..n]);
      assert Map(Timed(env.fallback), arrivals)[..n] == Map(Timed(env.fallback), arrivals[..n]);
    }
  }

  lemma {:induction false} TimesAreKept(env: Env, arrivals: seq<Arrival>, fallback: int)
    requires forall a :: a in arrivals ==> a.time.Some?
    ensures Kept(env.(fallback := fallback), arrivals) == Kept(env, arrivals)
  {
    if arrivals != [] {
      var n := |arrivals| - 1;
      assert arrivals == arrivals[..n] + [arrivals[n]];
      TimesAreKept(env, arrivals[..n], fallback);
    }
  }
}
