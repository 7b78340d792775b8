/** app/killchain.py: grouping alerts into chains with a union-find over entity timelines. */
module Alerts {
  import opened Prelude

  datatype EntityKind = User | Host | Ip

  datatype Entity = Entity(kind: EntityKind, value: string)

  /** The alert fields chain building reads; times are epoch seconds when they parse at all. */
  datatype Alert = Alert(
    id: Option<int>, eventTime: Option<real>, createdAt: Option<real>,
    user: Option<string>, host: Option<string>, ip: Option<string>, tactics: seq<string>)

  const KILL_CHAIN_TACTICS: seq<string> := [
    "reconnaissance", "resource-development", "initial-access", "execution",
    "persistence", "privilege-escalation", "defense-evasion", "evasion",
    "credential-access", "discovery", "lateral-movement", "collection",
    "command-and-control", "exfiltration", "inhibit-response-function",
    "impair-process-control", "impact"]

  /** Stripping and lower-casing is `fold`; the rest of the tactic spelling is here. */
  function NormalizeTactic(fold: string -> string, tactic: string): string {
    var s := fold(tactic);
    var key := if "attack." <= s then s[7..] else s;
    Map(c => if c == '_' || c == ' ' then '-' else c, key)
  }

  function AlertTactics(fold: string -> string, a: Alert): set<string> {
    set t | t in a.tactics && NormalizeTactic(fold, t) in KILL_CHAIN_TACTICS
      :: NormalizeTactic(fold, t)
  }

  function Tactics(fold: string -> string, c: seq<Alert>): set<string> {
    if c == [] then {} else AlertTactics(fold, c[0]) + Tactics(fold, c[1..])
  }

  /** The distinct kill-chain stages a group of alerts spans. */
  ghost function Stages(fold: string -> string, c: seq<Alert>): set<string> {
    set a, t | a in c && t in a.tactics && NormalizeTactic(fold, t) in KILL_CHAIN_TACTICS :: NormalizeTactic(fold, t)
  }

  lemma {:induction false} TacticsAreStages(fold: string -> string, c: seq<Alert>)
    ensures Tactics(fold, c) == Stages(fold, c)
  {
    if c != [] {
      TacticsAreStages(fold, c[1..]);
      assert c == [c[0]] + c[1..];
    }
  }

  /** `a` spells the key `t`: the same letters, with an underscore or a blank where `t` may have a hyphen. */
  ghost predicate Spells(a: string, t: string) {
    |a| == |t| && forall i :: 0 <= i < |a| ==> a[i] == t[i] || (t[i] == '-' && (a[i] == '_' || a[i] == ' '))
  }

  /** A key of the table has none of the characters a label may use in place of a hyphen, and no prefix. */
  ghost predicate IsKey(t: string) {
    forall i :: 0 <= i < |t| ==> t[i] != '_' && t[i] != ' ' && t[i] != '.'
  }

  lemma EarlyKeys()
    ensures IsKey("reconnaissance") && IsKey("resource-development") && IsKey("initial-access")
    ensures IsKey("execution") && IsKey("persistence") && IsKey("privilege-escalation")
    ensures IsKey("defense-evasion") && IsKey("evasion") && IsKey("credential-access")
  {}

  lemma LateKeys()
    ensures IsKey("discovery") && IsKey("lateral-movement") && IsKey("collection")
    ensures IsKey("command-and-control") && IsKey("exfiltration") && IsKey("inhibit-response-function")
    ensures IsKey("impair-process-control") && IsKey("impact")
  {}

  lemma StagesAreKeys(t: string)
    requires t in KILL_CHAIN_TACTICS
    ensures IsKey(t)
  {
    EarlyKeys();
    LateKeys();
  }

  lemma KeySpells(rest: string, t: string)
    requires IsKey(t)
    ensures Map(c => if c == '_' || c == ' ' then '-' else c, rest) == t <==> Spells(rest, t)
  {}

  /** A label stands for a stage exactly when it spells it, after at most one `attack.` in front. */
  lemma StageOfLabel(fold: string -> string, tactic: string, t: string)
    requires t in KILL_CHAIN_TACTICS
    ensures NormalizeTactic(fold, tactic) == t
       <==> Spells(fold(tactic), t) || exists rest :: fold(tactic) == "attack." + rest && Spells(rest, t)
  {
    var s := fold(tactic);
    StagesAreKeys(t);
    if "attack." <= s {
      var rest := s[7..];
      assert s == "attack." + rest && s[6] == '.';
      KeySpells(rest, t);
      assert !Spells(s, t) by { if |s| == |t| { assert t[6] != '.'; } }
    } else {
      KeySpells(s, t);
    }
  }

  function Actor(kind: EntityKind, field: Option<string>): seq<Entity> {
    if field.Some? && field.value != "" then [Entity(kind, field.value)] else []
  }

  function Entities(a: Alert): seq<Entity> {
    Actor(User, a.user) + Actor(Host, a.host) + Actor(Ip, a.ip)
  }

  /** The actors of an alert are its non-empty user, host and address. */
  lemma EntitiesMean(a: Alert, e: Entity)
    ensures e in Entities(a) <==>
              && e.value != ""
              && (match e.kind
                  case User => a.user == Some(e.value)
                  case Host => a.host == Some(e.value)
                  case Ip => a.ip == Some(e.value))
  {}

  /** `event_time or created_at`, so a zero event time also falls through; a missing time is 0. */
  function AlertTime(a: Alert): real {
    if a.eventTime.Some? && a.eventTime.value != 0.0 then a.eventTime.value
    else if a.createdAt.Some? then a.createdAt.value
    else 0.0
  }

  /** Only alerts that carry an id take part. */
  function Items(alerts: seq<Alert>): seq<Alert> {
    Filter((a: Alert) => a.id.Some?, alerts)
  }

  /** Meant for items; an alert without an id is never asked. */
  function IdOf(a: Alert): int {
    match a.id
    case Some(i) => i
    case None => 0
  }

  /** Taking part are exactly the alerts with an id, which is then their own. */
  lemma ItemsMean(alerts: seq<Alert>, a: Alert)
    ensures a in Items(alerts) <==> a in alerts && a.id.Some?
    ensures a in Items(alerts) ==> a.id == Some(IdOf(a))
  {
    FilterIn((x: Alert) => x.id.Some?, alerts);
  }

  /** The `ts` dictionary: the last alert carrying an id decides its time. */
  function TimeOf(items: seq<Alert>, id: int): real {
    if items == [] then 0.0
    else if IdOf(items[|items| - 1]) == id then AlertTime(items[|items| - 1])
    else TimeOf(items[..|items| - 1], id)
  }

  /** With several alerts of one id the last one decides, by its event time unless that is missing or zero. */
  lemma {:induction false} TimeOfLast(items: seq<Alert>, k: nat)
    requires k < |items| && forall j :: k < j < |items| ==> IdOf(items[j]) != IdOf(items[k])
    ensures var a, t := items[k], TimeOf(items, IdOf(items[k]));
            && (a.eventTime.Some? && a.eventTime.value != 0.0 ==> a.eventTime == Some(t))
            && (a.eventTime.None? || a.eventTime.value == 0.0 ==>
                  if a.createdAt.Some? then a.createdAt == Some(t) else t == 0.0)
  {
    var n := |items| - 1;
    if k < n {
      assert items[..n][k] == items[k];
      TimeOfLast(items[..n], k);
    }
  }

  ghost predicate HasEntity(items: seq<Alert>, id: int, e: Entity) {
    exists k :: 0 <= k < |items| && IdOf(items[k]) == id && e in Entities(items[k])
  }

  ghost predicate HasId(items: seq<Alert>, id: int) {
    exists k :: 0 <= k < |items| && IdOf(items[k]) == id
  }

  // ------------------------------------------------------- the meaning of a chain

  /** Two alerts share an entity and lie within the gap, whatever lies between them. */
  ghost predicate Linked(items: seq<Alert>, gap: real, a: int, b: int) {
    exists e :: Near(items, gap, a, b, e)
  }

  ghost predicate Near(items: seq<Alert>, gap: real, a: int, b: int, e: Entity) {
    && HasEntity(items, a, e) && HasEntity(items, b, e)
    && TimeOf(items, a) - TimeOf(items, b) <= gap && TimeOf(items, b) - TimeOf(items, a) <= gap
  }

  ghost predicate IsPath(items: seq<Alert>, gap: real, p: seq<int>) {
    p != [] && forall i :: 0 <= i < |p| - 1 ==> Linked(items, gap, p[i], p[i + 1])
  }

  ghost predicate Connected(items: seq<Alert>, gap: real, a: int, b: int) {
    exists p :: IsPath(items, gap, p) && p[0] == a && p[|p| - 1] == b
  }

  lemma ConnectedReflexive(items: seq<Alert>, gap: real, a: int)
    ensures Connected(items, gap, a, a)
  {
    assert IsPath(items, gap, [a]);
  }

  lemma LinkConnects(items: seq<Alert>, gap: real, a: int, b: int)
    requires Linked(items, gap, a, b)
    ensures Connected(items, gap, a, b)
  {
    assert IsPath(items, gap, [a, b]);
  }

  lemma ConnectedTransitive(items: seq<Alert>, gap: real, a: int, b: int, c: int)
    requires Connected(items, gap, a, b) && Connected(items, gap, b, c)
    ensures Connected(items, gap, a, c)
  {
    var p :| IsPath(items, gap, p) && p[0] == a && p[|p| - 1] == b;
    var q :| IsPath(items, gap, q) && q[0] == b && q[|q| - 1] == c;
    var r := p + q[1..];
    forall i | 0 <= i < |r| - 1 ensures Linked(items, gap, r[i], r[i + 1]) {
      if i < |p| - 1 {
        assert Linked(items, gap, p[i], p[i + 1]);
      } else {
        assert Linked(items, gap, q[i - |p| + 1], q[i - |p| + 2]);
      }
    }
    assert IsPath(items, gap, r);
  }

  lemma ConnectedSymmetric(items: seq<Alert>, gap: real, a: int, b: int)
    requires Connected(items, gap, a, b)
    ensures Connected(items, gap, b, a)
  {
    var p :| IsPath(items, gap, p) && p[0] == a && p[|p| - 1] == b;
    var r := seq(|p|, i requires 0 <= i < |p| => p[|p| - 1 - i]);
    forall i | 0 <= i < |r| - 1 ensures Linked(items, gap, r[i], r[i + 1]) {
      assert Linked(items, gap, p[|p| - 2 - i], p[|p| - 1 - i]);
      var e :| Near(items, gap, p[|p| - 2 - i], p[|p| - 1 - i], e);
      assert Near(items, gap, r[i], r[i + 1], e);
    }
    assert IsPath(items, gap, r);
  }

  /** All the items joined to `id`, in input order. */
  ghost function Component(items: seq<Alert>, gap: real, id: int): seq<Alert> {
    Filter((a: Alert) => Connected(items, gap, id, IdOf(a)), items)
  }

  // ------------------------------------------------------- order of the chains

  function Earliest(items: seq<Alert>, c: seq<Alert>): real {
    if c == [] then 0.0
    else if |c| == 1 then TimeOf(items, IdOf(c[0]))
    else
      var rest := Earliest(items, c[1..]);
      var t := TimeOf(items, IdOf(c[0]));
      if t < rest then t else rest
  }

  /** It is the time of one of them, and none is earlier. */
  lemma {:induction false} EarliestIsLeast(items: seq<Alert>, c: seq<Alert>)
    requires c != []
    ensures exists a :: a in c && TimeOf(items, IdOf(a)) == Earliest(items, c)
    ensures forall a :: a in c ==> Earliest(items, c) <= TimeOf(items, IdOf(a))
  {
    if |c| == 1 {
      assert c[0] in c;
    } else {
      EarliestIsLeast(items, c[1..]);
      assert c == [c[0]] + c[1..];
      var a :| a in c[1..] && TimeOf(items, IdOf(a)) == Earliest(items, c[1..]);
      assert a in c && c[0] in c;
    }
  }

  /** The sort key (minus length, earliest time). */
  predicate ChainLe(items: seq<Alert>, c: seq<Alert>, d: seq<Alert>) {
    |c| > |d| || (|c| == |d| && Earliest(items, c) <= Earliest(items, d))
  }
}

module KillChain {
  import opened Prelude
  import opened Sorting
  import opened DisjointSets
  import opened Alerts

  /** Elements with one representative are joined by a path of links. */
  ghost predicate Sound(items: seq<Alert>, gap: real, rep: map<int, int>) {
    forall a, b :: a in rep && b in rep && rep[a] == rep[b] ==> Connected(items, gap, a, b)
  }

  /** Every pair on one entity's timeline that is close enough has one representative. */
  ghost predicate Complete(items: seq<Alert>, gap: real, rep: map<int, int>, e: Entity) {
    forall a, b :: a in rep && b in rep && Near(items, gap, a, b, e) ==> rep[a] == rep[b]
  }

  /** Merging never separates what was together. */
  ghost predicate Coarser(before: map<int, int>, after: map<int, int>) {
    && before.Keys == after.Keys
    && forall a, b :: a in before && b in before && before[a] == before[b] ==> after[a] == after[b]
  }

  lemma CompleteStays(items: seq<Alert>, gap: real, before: map<int, int>, after: map<int, int>, e: Entity)
    requires Complete(items, gap, before, e) && Coarser(before, after)
    ensures Complete(items, gap, after, e)
  {}

  lemma MergeSound(items: seq<Alert>, gap: real, rep: map<int, int>, a: int, b: int)
    requires Sound(items, gap, rep) && a in rep && b in rep && Linked(items, gap, a, b)
    ensures Sound(items, gap, Merged(rep, rep[a], rep[b]))
  {
    LinkConnects(items, gap, a, b);
    ConnectedSymmetric(items, gap, a, b);
    var m := Merged(rep, rep[a], rep[b]);
    forall x, y | x in m && y in m && m[x] == m[y] ensures Connected(items, gap, x, y) {
      if rep[x] != rep[y] {
        if rep[x] == rep[a] {
          ConnectedTransitive(items, gap, x, a, b);
          ConnectedTransitive(items, gap, x, b, y);
        } else {
          ConnectedTransitive(items, gap, x, b, a);
          ConnectedTransitive(items, gap, x, a, y);
        }
      }
    }
  }

  /** A path stays inside one representative once every timeline is complete. */
  lemma {:induction false} PathSharesRep(
    items: seq<Alert>, gap: real, rep: map<int, int>, p: seq<int>)
    requires forall e :: Complete(items, gap, rep, e)
    requires forall id :: HasId(items, id) ==> id in rep
    requires IsPath(items, gap, p) && p[0] in rep
    ensures p[|p| - 1] in rep && rep[p[|p| - 1]] == rep[p[0]]
    decreases |p|
  {
    if |p| > 1 {
      assert Linked(items, gap, p[0], p[1]);
      var e :| Near(items, gap, p[0], p[1], e);
      assert HasEntity(items, p[1], e);
      assert HasId(items, p[1]);
      assert Complete(items, gap, rep, e);
      forall i | 0 <= i < |p[1..]| - 1 ensures Linked(items, gap, p[1..][i], p[1..][i + 1]) {
        assert Linked(items, gap, p[i + 1], p[i + 2]);
      }
      PathSharesRep(items, gap, rep, p[1..]);
    }
  }

  /** Sound and complete together: one representative exactly when a path joins the two. */
  lemma RepsAreComponents(items: seq<Alert>, gap: real, rep: map<int, int>, a: int, b: int)
    requires Sound(items, gap, rep)
    requires forall e :: Complete(items, gap, rep, e)
    requires forall id :: HasId(items, id) ==> id in rep
    requires a in rep && b in rep
    ensures rep[a] == rep[b] <==> Connected(items, gap, a, b)
  {
    if Connected(items, gap, a, b) {
      var p :| IsPath(items, gap, p) && p[0] == a && p[|p| - 1] == b;
      PathSharesRep(items, gap, rep, p);
    }
  }

  // ------------------------------------------------------- one entity's timeline

  predicate TimeLe(ts: map<int, real>, a: int, b: int) {
    (if a in ts then ts[a] else 0.0) <= (if b in ts then ts[b] else 0.0)
  }

  /** Joining close neighbours of a sorted timeline joins every close pair. */
  lemma {:induction false} NeighboursReachFar(
    ts: map<int, real>, gap: real, rep: map<int, int>, s: seq<int>, i: nat, j: nat)
    requires i <= j < |s|
    requires forall k :: 0 <= k < |s| ==> s[k] in ts && s[k] in rep
    requires forall k, l :: 0 <= k < l < |s| ==> ts[s[k]] <= ts[s[l]]
    requires forall k :: 0 <= k < |s| - 1 && ts[s[k + 1]] - ts[s[k]] <= gap ==> rep[s[k]] == rep[s[k + 1]]
    requires ts[s[j]] - ts[s[i]] <= gap
    ensures rep[s[i]] == rep[s[j]]
    decreases j - i
  {
    if i < j {
      assert ts[s[i]] <= ts[s[j - 1]] <= ts[s[j]];
      NeighboursReachFar(ts, gap, rep, s, i, j - 1);
      assert rep[s[j - 1]] == rep[s[j - 1 + 1]];
    }
  }

  /** `members.sort(key=...)`. */
  function TimeSorted(ts: map<int, real>, members: seq<int>): seq<int> {
    SortBy((a, b) => TimeLe(ts, a, b), members)
  }

  lemma TimeSortedFacts(ts: map<int, real>, members: seq<int>)
    requires forall id :: id in members ==> id in ts
    ensures forall id :: id in TimeSorted(ts, members) <==> id in members
    ensures forall k :: 0 <= k < |TimeSorted(ts, members)| ==> TimeSorted(ts, members)[k] in ts
    ensures forall k, l :: 0 <= k < l < |TimeSorted(ts, members)| ==>
              ts[TimeSorted(ts, members)[k]] <= ts[TimeSorted(ts, members)[l]]
  {
    var le := (a, b) => TimeLe(ts, a, b);
    SortByCorrect(le, members);
    var s := TimeSorted(ts, members);
    forall k | 0 <= k < |s| ensures s[k] in ts { assert s[k] in s; }
    forall k, l | 0 <= k < l < |s| ensures ts[s[k]] <= ts[s[l]] { assert le(s[k], s[l]); }
  }

  /** Every close pair of neighbours below `n` has one representative. */
  ghost predicate NeighboursJoined(
    ts: map<int, real>, gap: real, rep: map<int, int>, s: seq<int>, n: nat)
    requires forall k :: 0 <= k < |s| ==> s[k] in ts && s[k] in rep
  {
    forall k :: 0 <= k < n && k < |s| - 1 && ts[s[k + 1]] - ts[s[k]] <= gap ==> rep[s[k]] == rep[s[k + 1]]
  }

  lemma TimelineComplete(
    items: seq<Alert>, ts: map<int, real>, gap: real, rep: map<int, int>, s: seq<int>, e: Entity)
    requires forall k :: 0 <= k < |s| ==> s[k] in ts && s[k] in rep
    requires forall k, l :: 0 <= k < l < |s| ==> ts[s[k]] <= ts[s[l]]
    requires NeighboursJoined(ts, gap, rep, s, |s|)
    requires forall id :: id in s <==> HasEntity(items, id, e)
    requires forall id :: id in ts ==> ts[id] == TimeOf(items, id)
    ensures Complete(items, gap, rep, e)
  {
    forall a, b | a in rep && b in rep && Near(items, gap, a, b, e) ensures rep[a] == rep[b] {
      assert a in s && b in s;
      var i :| 0 <= i < |s| && s[i] == a;
      var j :| 0 <= j < |s| && s[j] == b;
      if i <= j {
        NeighboursReachFar(ts, gap, rep, s, i, j);
      } else {
        NeighboursReachFar(ts, gap, rep, s, j, i);
      }
    }
  }

  lemma MergeKeeps(rep: map<int, int>, a: int, b: int)
    requires a in rep && b in rep
    ensures Coarser(rep, Merged(rep, rep[a], rep[b]))
    ensures Merged(rep, rep[a], rep[b])[a] == Merged(rep, rep[a], rep[b])[b]
  {}

  /** The entity's alerts in time order. */
  ghost predicate Timeline(items: seq<Alert>, ts: map<int, real>, s: seq<int>, e: Entity) {
    && (forall k :: 0 <= k < |s| ==> s[k] in ts && ts[s[k]] == TimeOf(items, s[k]) && HasEntity(items, s[k], e))
    && (forall k, l :: 0 <= k < l < |s| ==> ts[s[k]] <= ts[s[l]])
  }

  /** Where the walk of one entity's timeline stands: everything before still joined, all joins justified. */
  ghost predicate Walked(
    items: seq<Alert>, ts: map<int, real>, gap: real, before: map<int, int>, rep: map<int, int>, s: seq<int>, n: nat)
  {
    && Coarser(before, rep) && Sound(items, gap, rep)
    && (forall k :: 0 <= k < |s| ==> s[k] in ts && s[k] in rep)
    && NeighboursJoined(ts, gap, rep, s, n)
  }

  ghost function NextRep(ts: map<int, real>, gap: real, rep: map<int, int>, prev: int, cur: int): map<int, int>
    requires prev in ts && cur in ts && prev in rep && cur in rep
  {
    if ts[cur] - ts[prev] <= gap then Merged(rep, rep[prev], rep[cur]) else rep
  }

  /** The body of the walk: a union, if the two are close enough. */
  method JoinIfClose(ds: DisjointSet<int>, ts: map<int, real>, gap: real, prev: int, cur: int)
    requires ds.Valid() && prev in ts && cur in ts && prev in ds.rep && cur in ds.rep
    modifies ds
    ensures ds.Valid() && ds.rep == NextRep(ts, gap, old(ds.rep), prev, cur)
  {
    if ts[cur] - ts[prev] <= gap {
      ds.Union(prev, cur);
    }
  }

  /** One step of the walk: the next pair of neighbours is joined if it is close enough. */
  lemma WalkStep(
    items: seq<Alert>, ts: map<int, real>, gap: real, before: map<int, int>, rep: map<int, int>,
    s: seq<int>, n: nat, e: Entity)
    requires Walked(items, ts, gap, before, rep, s, n) && n + 1 < |s|
    requires Timeline(items, ts, s, e)
    ensures Walked(items, ts, gap, before, NextRep(ts, gap, rep, s[n], s[n + 1]), s, n + 1)
  {
    if ts[s[n + 1]] - ts[s[n]] <= gap {
      assert Near(items, gap, s[n], s[n + 1], e);
      MergeSound(items, gap, rep, s[n], s[n + 1]);
      MergeKeeps(rep, s[n], s[n + 1]);
    }
  }

  /** `members.sort(...)` and the walk over its neighbours, for one entity. */
  method LinkTimeline(
    ds: DisjointSet<int>, ts: map<int, real>, gap: real, members: seq<int>,
    ghost items: seq<Alert>, ghost e: Entity)
    requires ds.Valid() && Sound(items, gap, ds.rep) && ts.Keys == ds.rep.Keys
    requires forall id :: id in ts ==> ts[id] == TimeOf(items, id)
    requires forall id :: id in members <==> HasEntity(items, id, e)
    requires forall id :: id in members ==> id in ts
    modifies ds
    ensures ds.Valid() && Sound(items, gap, ds.rep) && Coarser(old(ds.rep), ds.rep)
    ensures Complete(items, gap, ds.rep, e)
  {
    var s := TimeSorted(ts, members);
    TimeSortedFacts(ts, members);
    forall k | 0 <= k < |s| ensures s[k] in ts && ts[s[k]] == TimeOf(items, s[k]) && HasEntity(items, s[k], e) {
      assert s[k] in s;
    }
    WalkTimeline(ds, ts, gap, s, items, e);
    TimelineComplete(items, ts, gap, ds.rep, s, e);
  }

  method WalkTimeline(
    ds: DisjointSet<int>, ts: map<int, real>, gap: real, s: seq<int>, ghost items: seq<Alert>, ghost e: Entity)
    requires ds.Valid() && Timeline(items, ts, s, e)
    requires Walked(items, ts, gap, ds.rep, ds.rep, s, 0)
    modifies ds
    ensures ds.Valid() && Walked(items, ts, gap, old(ds.rep), ds.rep, s, |s|)
  {
    var n := 1;
    while n < |s|
      invariant 1 <= n && (n <= |s| || |s| == 0) && ds.Valid()
      invariant Walked(items, ts, gap, old(ds.rep), ds.rep, s, n - 1)
    {
      WalkStep(items, ts, gap, old(ds.rep), ds.rep, s, n - 1, e);
      JoinIfClose(ds, ts, gap, s[n - 1], s[n]);
      n := n + 1;
    }
  }

  // ------------------------------------------------------- the dictionaries

  /** The `ts` dictionary. */
  method Times(items: seq<Alert>) returns (ts: map<int, real>)
    ensures forall id :: id in ts <==> HasId(items, id)
    ensures forall id :: id in ts ==> ts[id] == TimeOf(items, id)
  {
    ts := map[];
    for i := 0 to |items|
      invariant forall id :: id in ts <==> HasId(items[..i], id)
      invariant forall id :: id in ts ==> ts[id] == TimeOf(items[..i], id)
    {
      ts := ts[IdOf(items[i]) := AlertTime(items[i])];
      assert items[..i + 1][..i] == items[..i];
      forall id ensures HasId(items[..i + 1], id) <==> HasId(items[..i], id) || id == IdOf(items[i]) {
        assert items[..i + 1][i] == items[i];
        if HasId(items[..i], id) {
          var k :| 0 <= k < i && IdOf(items[..i][k]) == id;
          assert IdOf(items[..i + 1][k]) == id;
        }
      }
    }
    assert items[..|items|] == items;
  }

  ghost predicate Lists(members: map<Entity, seq<int>>, e: Entity, id: int) {
    e in members && id in members[e]
  }

  /** The inner loop: `setdefault(ent, []).append(id)` for every entity of one alert. */
  method Record(members0: map<Entity, seq<int>>, order0: seq<Entity>, id: int, es: seq<Entity>)
    returns (members: map<Entity, seq<int>>, order: seq<Entity>)
    requires forall e :: e in order0 <==> e in members0
    ensures forall e :: e in order <==> e in members
    ensures forall e, x :: Lists(members, e, x) <==> Lists(members0, e, x) || (x == id && e in es)
  {
    members, order := members0, order0;
    for k := 0 to |es|
      invariant forall e :: e in order <==> e in members
      invariant forall e, x :: Lists(members, e, x) <==> Lists(members0, e, x) || (x == id && e in es[..k])
    {
      var e := es[k];
      ghost var before := members;
      if e !in members {
        members := members[e := []];
        order := order + [e];
      }
      members := members[e := members[e] + [id]];
      assert es[..k + 1] == es[..k] + [e];
      forall f, x ensures Lists(members, f, x) <==> Lists(before, f, x) || (x == id && f == e) {}
    }
    assert es[..|es|] == es;
  }

  lemma HasEntityStep(items: seq<Alert>, i: nat, id: int, e: Entity)
    requires i < |items|
    ensures HasEntity(items[..i + 1], id, e)
       <==> HasEntity(items[..i], id, e) || (id == IdOf(items[i]) && e in Entities(items[i]))
  {
    if HasEntity(items[..i], id, e) {
      var k :| 0 <= k < i && IdOf(items[..i][k]) == id && e in Entities(items[..i][k]);
      assert items[..i + 1][k] == items[k];
    }
    assert items[..i + 1][i] == items[i];
    if HasEntity(items[..i + 1], id, e) {
      var k :| 0 <= k < i + 1 && IdOf(items[..i + 1][k]) == id && e in Entities(items[..i + 1][k]);
      if k < i { assert items[..i][k] == items[k]; }
    }
  }

  /** The `entity_members` dictionary and the order its keys were first seen in. */
  method Timelines(items: seq<Alert>) returns (members: map<Entity, seq<int>>, order: seq<Entity>)
    ensures forall e :: e in order <==> e in members
    ensures forall e, id :: Lists(members, e, id) <==> HasEntity(items, id, e)
  {
    members, order := map[], [];
    for i := 0 to |items|
      invariant forall e :: e in order <==> e in members
      invariant forall e, id :: Lists(members, e, id) <==> HasEntity(items[..i], id, e)
    {
      members, order := Record(members, order, IdOf(items[i]), Entities(items[i]));
      forall e, id ensures Lists(members, e, id) <==> HasEntity(items[..i + 1], id, e) {
        HasEntityStep(items, i, id, e);
      }
    }
    assert items[..|items|] == items;
  }

  // ------------------------------------------------------- linking everything

  /** `ds.add` for every item. */
  method Singletons(items: seq<Alert>) returns (ds: DisjointSet<int>)
    ensures fresh(ds) && ds.Valid()
    ensures forall id :: id in ds.rep <==> HasId(items, id)
    ensures forall id :: id in ds.rep ==> ds.rep[id] == id
  {
    ds := new DisjointSet<int>();
    for i := 0 to |items|
      invariant fresh(ds) && ds.Valid()
      invariant forall id :: id in ds.rep <==> exists k :: 0 <= k < i && IdOf(items[k]) == id
      invariant forall id :: id in ds.rep ==> ds.rep[id] == id
    {
      ds.Add(IdOf(items[i]));
    }
  }

  /** The timelines list exactly the alerts that carry each entity. */
  ghost predicate ListsAll(items: seq<Alert>, members: map<Entity, seq<int>>) {
    forall e, id :: Lists(members, e, id) <==> HasEntity(items, id, e)
  }

  lemma MembersMean(items: seq<Alert>, members: map<Entity, seq<int>>, ts: map<int, real>, e: Entity)
    requires ListsAll(items, members) && e in members
    requires forall id :: id in ts <==> HasId(items, id)
    ensures forall id :: id in members[e] <==> HasEntity(items, id, e)
    ensures forall id :: id in members[e] ==> id in ts
  {
    forall id ensures id in members[e] <==> HasEntity(items, id, e) {
      assert Lists(members, e, id) <==> HasEntity(items, id, e);
    }
    forall id | id in members[e] ensures id in ts {
      var k :| 0 <= k < |items| && IdOf(items[k]) == id && e in Entities(items[k]);
      assert HasId(items, id);
    }
  }

  /** The walks of the first `i` entities are done. */
  ghost predicate CompleteUpTo(items: seq<Alert>, gap: real, rep: map<int, int>, order: seq<Entity>, i: nat)
    requires i <= |order|
  {
    forall k :: 0 <= k < i ==> Complete(items, gap, rep, order[k])
  }

  /** One more walk, which only joins, completes one more entity. */
  lemma CompleteNext(
    items: seq<Alert>, gap: real, before: map<int, int>, after: map<int, int>, order: seq<Entity>, i: nat)
    requires i < |order| && CompleteUpTo(items, gap, before, order, i)
    requires Complete(items, gap, after, order[i]) && Coarser(before, after)
    ensures CompleteUpTo(items, gap, after, order, i + 1)
  {
    forall k | 0 <= k < i ensures Complete(items, gap, after, order[k]) {
      CompleteStays(items, gap, before, after, order[k]);
    }
  }

  lemma CompleteEverywhere(
    items: seq<Alert>, gap: real, rep: map<int, int>, members: map<Entity, seq<int>>, order: seq<Entity>, e: Entity)
    requires ListsAll(items, members) && forall f :: f in order <==> f in members
    requires CompleteUpTo(items, gap, rep, order, |order|)
    ensures Complete(items, gap, rep, e)
  {
    if e in order {
      var k :| 0 <= k < |order| && order[k] == e;
      assert Complete(items, gap, rep, order[k]);
    } else {
      forall a, b ensures !Near(items, gap, a, b, e) {
        assert Lists(members, e, a) <==> HasEntity(items, a, e);
      }
    }
  }

  /** The union phase: afterwards representatives are exactly the connected components. */
  method LinkAll(items: seq<Alert>, gap: real) returns (ds: DisjointSet<int>)
    ensures fresh(ds) && ds.Valid()
    ensures forall id :: id in ds.rep <==> HasId(items, id)
    ensures forall a, b :: a in ds.rep && b in ds.rep ==>
              (ds.rep[a] == ds.rep[b] <==> Connected(items, gap, a, b))
  {
    ds := Singletons(items);
    var ts := Times(items);
    var members, order := Timelines(items);
    assert ListsAll(items, members);
    forall a, b | a in ds.rep && b in ds.rep && ds.rep[a] == ds.rep[b]
      ensures Connected(items, gap, a, b) { ConnectedReflexive(items, gap, a); }
    assert forall id :: id in ts.Keys <==> id in ds.rep.Keys;
    for i := 0 to |order|
      invariant fresh(ds) && ds.Valid()
      invariant ds.rep.Keys == ts.Keys
      invariant Sound(items, gap, ds.rep)
      invariant CompleteUpTo(items, gap, ds.rep, order, i)
    {
      ghost var before := ds.rep;
      MembersMean(items, members, ts, order[i]);
      LinkTimeline(ds, ts, gap, members[order[i]], items, order[i]);
      CompleteNext(items, gap, before, ds.rep, order, i);
    }
    forall e ensures Complete(items, gap, ds.rep, e) {
      CompleteEverywhere(items, gap, ds.rep, members, order, e);
    }
    forall a, b | a in ds.rep && b in ds.rep
      ensures ds.rep[a] == ds.rep[b] <==> Connected(items, gap, a, b)
    {
      RepsAreComponents(items, gap, ds.rep, a, b);
    }
  }

  // ------------------------------------------------------- collecting the chains

  /** The items answering `r`, in input order. */
  ghost function GroupOf(items: seq<Alert>, rep: map<int, int>, r: int): seq<Alert> {
    Filter((a: Alert) => IdOf(a) in rep && rep[IdOf(a)] == r, items)
  }

  lemma GroupStep(items: seq<Alert>, rep: map<int, int>, q: int, i: nat)
    requires i < |items| && IdOf(items[i]) in rep
    ensures GroupOf(items[..i + 1], rep, q)
         == GroupOf(items[..i], rep, q) + (if q == rep[IdOf(items[i])] then [items[i]] else [])
  {
    var p := (a: Alert) => IdOf(a) in rep && rep[IdOf(a)] == q;
    assert items[..i + 1] == items[..i] + [items[i]];
    FilterAppend(p, items[..i], [items[i]]);
  }

  /** `groups` holds exactly the non-empty groups of `items`. */
  ghost predicate Grouped(items: seq<Alert>, rep: map<int, int>, groups: map<int, seq<Alert>>) {
    forall r :: (r in groups <==> GroupOf(items, rep, r) != [])
             && (r in groups ==> groups[r] == GroupOf(items, rep, r))
  }

  lemma GroupedStep(
    items: seq<Alert>, rep: map<int, int>, groups: map<int, seq<Alert>>, after: map<int, seq<Alert>>, i: nat, r: int)
    requires i < |items| && IdOf(items[i]) in rep && r == rep[IdOf(items[i])]
    requires Grouped(items[..i], rep, groups)
    requires after == groups[r := (if r in groups then groups[r] else []) + [items[i]]]
    ensures Grouped(items[..i + 1], rep, after)
  {
    forall q
      ensures q in after <==> GroupOf(items[..i + 1], rep, q) != []
      ensures q in after ==> after[q] == GroupOf(items[..i + 1], rep, q)
    {
      GroupStep(items, rep, q, i);
    }
  }

  /** The dictionary and its keys in order once the alerts `items` have been put in. */
  ghost predicate Gathered(items: seq<Alert>, rep: map<int, int>, groups: map<int, seq<Alert>>, order: seq<int>) {
    && NoDuplicates(order) && (forall r :: r in order <==> r in groups)
    && Grouped(items, rep, groups)
  }

  /** `groups.setdefault(r, []).append(a)`. */
  method AppendTo(groups: map<int, seq<Alert>>, order: seq<int>, r: int, a: Alert)
    returns (groups': map<int, seq<Alert>>, order': seq<int>)
    ensures groups' == groups[r := (if r in groups then groups[r] else []) + [a]]
    ensures order' == if r in groups then order else order + [r]
  {
    groups', order' := groups, order;
    if r !in groups {
      groups' := groups'[r := []];
      order' := order' + [r];
    }
    groups' := groups'[r := groups'[r] + [a]];
  }

  lemma GatherStep(items: seq<Alert>, rep: map<int, int>, groups: map<int, seq<Alert>>, order: seq<int>, i: nat, r: int)
    requires i < |items| && IdOf(items[i]) in rep && r == rep[IdOf(items[i])]
    requires Gathered(items[..i], rep, groups, order)
    ensures Gathered(items[..i + 1], rep, groups[r := (if r in groups then groups[r] else []) + [items[i]]],
                     if r in groups then order else order + [r])
  {
    GroupedStep(items, rep, groups, groups[r := (if r in groups then groups[r] else []) + [items[i]]], i, r);
  }

  /** The `groups` dictionary, keyed by root, and the order its roots were first seen in. */
  method Groups(items: seq<Alert>, ds: DisjointSet<int>)
    returns (groups: map<int, seq<Alert>>, order: seq<int>)
    requires ds.Valid() && forall a :: a in items ==> IdOf(a) in ds.rep
    modifies ds
    ensures ds.Valid() && ds.rep == old(ds.rep)
    ensures NoDuplicates(order) && forall r :: r in order <==> r in groups
    ensures Grouped(items, ds.rep, groups)
  {
    groups, order := map[], [];
    ghost var rep := ds.rep;
    for i := 0 to |items|
      invariant ds.Valid() && ds.rep == rep
      invariant Gathered(items[..i], rep, groups, order)
    {
      assert items[i] in items;
      var r := ds.Find(IdOf(items[i]));
      GatherStep(items, rep, groups, order, i, r);
      groups, order := AppendTo(groups, order, r, items[i]);
    }
    assert items[..|items|] == items;
  }

  lemma GroupIsComponent(items: seq<Alert>, gap: real, rep: map<int, int>, id: int)
    requires id in rep && forall a :: a in items ==> IdOf(a) in rep
    requires forall b :: b in rep ==> (rep[id] == rep[b] <==> Connected(items, gap, id, b))
    ensures GroupOf(items, rep, rep[id]) == Component(items, gap, id)
  {
    FilterSame((a: Alert) => IdOf(a) in rep && rep[IdOf(a)] == rep[id],
               (a: Alert) => Connected(items, gap, id, IdOf(a)), items);
  }

  /** One whole component, with enough distinct tactics to be a story. */
  ghost predicate IsChain(items: seq<Alert>, gap: real, minTactics: int, fold: string -> string, c: seq<Alert>) {
    c != [] && c == Component(items, gap, IdOf(c[0])) && |Stages(fold, c)| >= minTactics
  }

  /** Two chains with an alert id in common are the same chain. */
  lemma ChainsShareNothing(
    items: seq<Alert>, gap: real, minTactics: int, fold: string -> string,
    c: seq<Alert>, d: seq<Alert>, a: Alert, b: Alert)
    requires IsChain(items, gap, minTactics, fold, c) && IsChain(items, gap, minTactics, fold, d)
    requires a in c && b in d && IdOf(a) == IdOf(b)
    ensures c == d
  {
    var x, y, z := IdOf(c[0]), IdOf(d[0]), IdOf(a);
    var p, q := (w: Alert) => Connected(items, gap, x, IdOf(w)), (w: Alert) => Connected(items, gap, y, IdOf(w));
    FilterIn(p, items);
    FilterIn(q, items);
    assert Connected(items, gap, x, z) && Connected(items, gap, y, z);
    ConnectedSymmetric(items, gap, x, z);
    ConnectedSymmetric(items, gap, y, z);
    forall w | w in items ensures p(w) == q(w) {
      if p(w) {
        ConnectedTransitive(items, gap, y, z, x);
        ConnectedTransitive(items, gap, y, x, IdOf(w));
      }
      if q(w) {
        ConnectedTransitive(items, gap, x, z, y);
        ConnectedTransitive(items, gap, x, y, IdOf(w));
      }
    }
    FilterSame(p, q, items);
  }

  lemma ChainLePreorder(items: seq<Alert>)
    ensures TotalPreorder((c, d) => ChainLe(items, c, d))
  {}

  lemma GroupHead(items: seq<Alert>, rep: map<int, int>, r: int)
    requires GroupOf(items, rep, r) != []
    ensures IdOf(GroupOf(items, rep, r)[0]) in rep && rep[IdOf(GroupOf(items, rep, r)[0])] == r
    ensures GroupOf(items, rep, r)[0] in items
  {
    FilterIn((a: Alert) => IdOf(a) in rep && rep[IdOf(a)] == r, items);
    assert GroupOf(items, rep, r)[0] in GroupOf(items, rep, r);
  }

  lemma GroupHolds(items: seq<Alert>, rep: map<int, int>, a: Alert)
    requires a in items && IdOf(a) in rep
    ensures a in GroupOf(items, rep, rep[IdOf(a)])
  {
    FilterIn((b: Alert) => IdOf(b) in rep && rep[IdOf(b)] == rep[IdOf(a)], items);
  }

  /** `c` is one of the groups and has enough tactics. */
  ghost predicate Qualifies(
    groups: map<int, seq<Alert>>, minTactics: int, fold: string -> string, c: seq<Alert>)
  {
    |Tactics(fold, c)| >= minTactics && exists r :: r in groups && c == groups[r]
  }

  /** `c` is a group whose root is among `roots`. */
  ghost predicate RootedIn(rep: map<int, int>, roots: seq<int>, c: seq<Alert>) {
    c != [] && IdOf(c[0]) in rep && rep[IdOf(c[0])] in roots
  }

  /** Everything found is a group with enough tactics. */
  ghost predicate AllQualify(
    groups: map<int, seq<Alert>>, minTactics: int, fold: string -> string, found: seq<seq<Alert>>)
  {
    forall c :: c in found ==> Qualifies(groups, minTactics, fold, c)
  }

  /** Everything found belongs to one of `roots`. */
  ghost predicate AllRooted(rep: map<int, int>, roots: seq<int>, found: seq<seq<Alert>>) {
    forall c :: c in found ==> RootedIn(rep, roots, c)
  }

  /** No group of `roots` with enough tactics is missing. */
  ghost predicate NoneMissed(
    groups: map<int, seq<Alert>>, minTactics: int, fold: string -> string, roots: seq<int>, found: seq<seq<Alert>>)
  {
    forall r :: r in roots && r in groups && |Tactics(fold, groups[r])| >= minTactics ==> groups[r] in found
  }

  /** What has been found once the groups of `roots` have been looked at. */
  ghost predicate Collected(
    groups: map<int, seq<Alert>>, minTactics: int, fold: string -> string, rep: map<int, int>,
    roots: seq<int>, found: seq<seq<Alert>>)
  {
    && NoDuplicates(found)
    && AllQualify(groups, minTactics, fold, found)
    && AllRooted(rep, roots, found)
    && NoneMissed(groups, minTactics, fold, roots, found)
  }

  /** A group whose root is new to `roots` is rooted there only once the root has joined. */
  lemma RootJoins(items: seq<Alert>, groups: map<int, seq<Alert>>, rep: map<int, int>, roots: seq<int>, r: int)
    requires Grouped(items, rep, groups) && r in groups && r !in roots
    ensures !RootedIn(rep, roots, groups[r]) && RootedIn(rep, roots + [r], groups[r])
  {
    GroupHead(items, rep, r);
  }

  lemma RootsGrow(rep: map<int, int>, roots: seq<int>, r: int, found: seq<seq<Alert>>)
    requires AllRooted(rep, roots, found)
    ensures AllRooted(rep, roots + [r], found)
  {
    forall c | c in found ensures RootedIn(rep, roots + [r], c) {
      assert RootedIn(rep, roots, c);
    }
  }

  lemma RootedSnoc(rep: map<int, int>, roots: seq<int>, found: seq<seq<Alert>>, c: seq<Alert>)
    requires AllRooted(rep, roots, found) && RootedIn(rep, roots, c)
    ensures AllRooted(rep, roots, found + [c])
  {}

  lemma QualifySnoc(
    groups: map<int, seq<Alert>>, minTactics: int, fold: string -> string, found: seq<seq<Alert>>, r: int)
    requires AllQualify(groups, minTactics, fold, found)
    requires r in groups && |Tactics(fold, groups[r])| >= minTactics
    ensures AllQualify(groups, minTactics, fold, found + [groups[r]])
  {
    assert Qualifies(groups, minTactics, fold, groups[r]);
  }

  lemma NoneMissedNext(
    groups: map<int, seq<Alert>>, minTactics: int, fold: string -> string,
    roots: seq<int>, r: int, found: seq<seq<Alert>>, more: seq<seq<Alert>>)
    requires NoneMissed(groups, minTactics, fold, roots, found) && r in groups
    requires |Tactics(fold, groups[r])| >= minTactics ==> groups[r] in more
    ensures NoneMissed(groups, minTactics, fold, roots + [r], found + more)
  {
    forall q | q in roots + [r] && q in groups && |Tactics(fold, groups[q])| >= minTactics
      ensures groups[q] in found + more
    {
      if q != r { assert q in roots; }
    }
  }

  lemma CollectStep(
    items: seq<Alert>, groups: map<int, seq<Alert>>, minTactics: int, fold: string -> string, rep: map<int, int>,
    roots: seq<int>, r: int, found: seq<seq<Alert>>)
    requires Grouped(items, rep, groups) && r in groups && r !in roots
    requires Collected(groups, minTactics, fold, rep, roots, found)
    ensures Collected(groups, minTactics, fold, rep, roots + [r],
                      if |Tactics(fold, groups[r])| >= minTactics then found + [groups[r]] else found)
  {
    var c := groups[r];
    RootJoins(items, groups, rep, roots, r);
    RootsGrow(rep, roots, r, found);
    if |Tactics(fold, c)| >= minTactics {
      RootedSnoc(rep, roots + [r], found, c);
      QualifySnoc(groups, minTactics, fold, found, r);
      NoneMissedNext(groups, minTactics, fold, roots, r, found, [c]);
      assert c !in found;
    } else {
      NoneMissedNext(groups, minTactics, fold, roots, r, found, []);
      assert found + [] == found;
    }
  }

  lemma NextIsNew(order: seq<int>, i: nat)
    requires NoDuplicates(order) && i < |order|
    ensures order[i] in order && order[i] !in order[..i] && order[..i + 1] == order[..i] + [order[i]]
  {}

  lemma CollectedAll(
    groups: map<int, seq<Alert>>, minTactics: int, fold: string -> string, rep: map<int, int>,
    roots: seq<int>, found: seq<seq<Alert>>)
    requires Collected(groups, minTactics, fold, rep, roots, found)
    requires forall r :: r in groups ==> r in roots
    ensures NoDuplicates(found)
    ensures forall c :: c in found ==> Qualifies(groups, minTactics, fold, c)
    ensures forall r :: r in groups && |Tactics(fold, groups[r])| >= minTactics ==> groups[r] in found
  {}

  /** `groups.values()` narrowed to those with enough tactics. */
  method Qualifying(
    items: seq<Alert>, minTactics: int, fold: string -> string,
    groups: map<int, seq<Alert>>, order: seq<int>, ghost rep: map<int, int>)
    returns (found: seq<seq<Alert>>)
    requires NoDuplicates(order) && forall r :: r in order <==> r in groups
    requires Grouped(items, rep, groups)
    ensures NoDuplicates(found)
    ensures forall c :: c in found ==> Qualifies(groups, minTactics, fold, c)
    ensures forall r :: r in groups && |Tactics(fold, groups[r])| >= minTactics ==> groups[r] in found
  {
    found := [];
    for i := 0 to |order|
      invariant Collected(groups, minTactics, fold, rep, order[..i], found)
    {
      var r := order[i];
      NextIsNew(order, i);
      CollectStep(items, groups, minTactics, fold, rep, order[..i], r, found);
      if |Tactics(fold, groups[r])| >= minTactics {
        found := found + [groups[r]];
      }
    }
    assert order[..|order|] == order;
    CollectedAll(groups, minTactics, fold, rep, order, found);
  }

  /** Groups under exact representatives are the components the specification speaks of. */
  lemma FoundAreChains(
    items: seq<Alert>, gap: real, minTactics: int, fold: string -> string,
    groups: map<int, seq<Alert>>, rep: map<int, int>, found: seq<seq<Alert>>)
    requires forall a :: a in items ==> IdOf(a) in rep
    requires forall a, b :: a in rep && b in rep ==> (rep[a] == rep[b] <==> Connected(items, gap, a, b))
    requires Grouped(items, rep, groups)
    requires forall c :: c in found ==> Qualifies(groups, minTactics, fold, c)
    requires forall r :: r in groups && |Tactics(fold, groups[r])| >= minTactics ==> groups[r] in found
    ensures forall c :: c in found ==> IsChain(items, gap, minTactics, fold, c)
    ensures forall a :: a in items && |Stages(fold, Component(items, gap, IdOf(a)))| >= minTactics
              ==> Component(items, gap, IdOf(a)) in found
  {
    forall c | c in found ensures IsChain(items, gap, minTactics, fold, c) {
      var r :| r in groups && c == groups[r];
      GroupHead(items, rep, r);
      GroupIsComponent(items, gap, rep, IdOf(c[0]));
      TacticsAreStages(fold, c);
    }
    forall a | a in items && |Stages(fold, Component(items, gap, IdOf(a)))| >= minTactics
      ensures Component(items, gap, IdOf(a)) in found
    {
      GroupIsComponent(items, gap, rep, IdOf(a));
      GroupHolds(items, rep, a);
      TacticsAreStages(fold, Component(items, gap, IdOf(a)));
      assert rep[IdOf(a)] in groups;
    }
  }

  /** The final sort keeps the set of chains; what it may not break is stated here. */
  lemma SortedChains(
    items: seq<Alert>, gap: real, minTactics: int, fold: string -> string, found: seq<seq<Alert>>)
    requires NoDuplicates(found)
    requires forall c :: c in found ==> IsChain(items, gap, minTactics, fold, c)
    ensures var le := (c, d) => ChainLe(items, c, d); var chains := SortBy(le, found);
            && Sorted(le, chains)
            && (forall c :: c in chains <==> c in found)
            && (forall i, j, a, b :: 0 <= i < j < |chains| && a in chains[i] && b in chains[j] ==> IdOf(a) != IdOf(b))
  {
    var le := (c, d) => ChainLe(items, c, d);
    var chains := SortBy(le, found);
    ChainLePreorder(items);
    SortByCorrect(le, found);
    NoDuplicatesPermutes(found, chains);
    forall i, j, a, b | 0 <= i < j < |chains| && a in chains[i] && b in chains[j]
      ensures IdOf(a) != IdOf(b)
    {
      if IdOf(a) == IdOf(b) {
        assert chains[i] in chains && chains[j] in chains;
        ChainsShareNothing(items, gap, minTactics, fold, chains[i], chains[j], a, b);
      }
    }
  }

  /**
   * The result is exactly the connected components with enough tactics, each once, longest first
   * and earliest first among equals. No alert id is in two chains.
   */
  method BuildChains(alerts: seq<Alert>, gap: real, minTactics: int, fold: string -> string)
    returns (chains: seq<seq<Alert>>)
    ensures forall c :: c in chains ==> IsChain(Items(alerts), gap, minTactics, fold, c)
    ensures forall a :: a in Items(alerts)
              && |Stages(fold, Component(Items(alerts), gap, IdOf(a)))| >= minTactics
              ==> Component(Items(alerts), gap, IdOf(a)) in chains
    ensures forall i, j, a, b :: 0 <= i < j < |chains| && a in chains[i] && b in chains[j] ==> IdOf(a) != IdOf(b)
    ensures forall i, j :: 0 <= i < j < |chains| ==>
              || |chains[i]| > |chains[j]|
              || (|chains[i]| == |chains[j]|
                  && Earliest(Items(alerts), chains[i]) <= Earliest(Items(alerts), chains[j]))
  {
    var items := Items(alerts);
    var ds := LinkAll(items, gap);
    forall a | a in items ensures IdOf(a) in ds.rep {
      var k :| 0 <= k < |items| && items[k] == a;
      assert HasId(items, IdOf(a));
    }
    var groups, order := Groups(items, ds);
    var found := Qualifying(items, minTactics, fold, groups, order, ds.rep);
    FoundAreChains(items, gap, minTactics, fold, groups, ds.rep, found);
    SortedChains(items, gap, minTactics, fold, found);
    chains := SortBy((c, d) => ChainLe(items, c, d), found);
  }

  lemma SharedHostLinks(items: seq<Alert>, gap: real, a: Alert, b: Alert, host: string)
    requires a in items && b in items && a.host == b.host == Some(host) && host != ""
    requires TimeOf(items, IdOf(a)) - TimeOf(items, IdOf(b)) <= gap
    requires TimeOf(items, IdOf(b)) - TimeOf(items, IdOf(a)) <= gap
    ensures a in Component(items, gap, IdOf(a)) && b in Component(items, gap, IdOf(a))
  {
    var i :| 0 <= i < |items| && items[i] == a;
    var j :| 0 <= j < |items| && items[j] == b;
    var e := Entity(Host, host);
    EntitiesMean(a, e);
    EntitiesMean(b, e);
    assert Near(items, gap, IdOf(a), IdOf(b), e);
    LinkConnects(items, gap, IdOf(a), IdOf(b));
    ConnectedReflexive(items, gap, IdOf(a));
    FilterIn((x: Alert) => Connected(items, gap, IdOf(a), IdOf(x)), items);
  }

  lemma SubsetSize(a: set<string>, b: set<string>)
    requires a <= b
    ensures |a| <= |b|
  {
    assert b == a + (b - a);
    assert |a + (b - a)| == |a| + |b - a|;
  }

  lemma TwoStages(fold: string -> string, c: seq<Alert>, a: Alert, b: Alert, s: string, t: string)
    requires a in c && b in c && s in a.tactics && t in b.tactics
    requires NormalizeTactic(fold, s) in KILL_CHAIN_TACTICS && NormalizeTactic(fold, t) in KILL_CHAIN_TACTICS
    requires NormalizeTactic(fold, s) != NormalizeTactic(fold, t)
    ensures |Stages(fold, c)| >= 2
  {
    SubsetSize({NormalizeTactic(fold, s), NormalizeTactic(fold, t)}, Stages(fold, c));
  }

  /** Two alerts of one host, close in time and in different stages of the chain, are told as one story. */
  lemma SharedHostIsStory(
    items: seq<Alert>, gap: real, fold: string -> string, a: Alert, b: Alert, host: string, s: string, t: string)
    requires a in items && b in items && a.host == b.host == Some(host) && host != ""
    requires TimeOf(items, IdOf(a)) - TimeOf(items, IdOf(b)) <= gap
    requires TimeOf(items, IdOf(b)) - TimeOf(items, IdOf(a)) <= gap
    requires s in a.tactics && t in b.tactics && NormalizeTactic(fold, s) != NormalizeTactic(fold, t)
    requires NormalizeTactic(fold, s) in KILL_CHAIN_TACTICS && NormalizeTactic(fold, t) in KILL_CHAIN_TACTICS
    ensures var c := Component(items, gap, IdOf(a));
            a in c && b in c && |Stages(fold, c)| >= 2
  {
    SharedHostLinks(items, gap, a, b, host);
    TwoStages(fold, Component(items, gap, IdOf(a)), a, b, s, t);
  }
}
