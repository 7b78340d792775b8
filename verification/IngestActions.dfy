/** app/ingest_actions.py: masking, routing and the rule evaluator in front of storage. */
module IngestEvents {
  import opened Prelude
  import opened Scrubbing

  /** A `raw` value. Objects keep their members in order, one member per key. */
  datatype Json =
    | Nil
    | Str(s: string)
    | Scalar(rendered: string)
    | Obj(members: seq<Member>)
    | Arr(items: seq<Json>)

  datatype Member = Member(key: string, value: Json)

  /** A normalized column. */
  datatype Cell = Absent | Text(s: string) | Num(rendered: string)

  datatype Ev = Ev(columns: map<string, Cell>, raw: Json)

  const TEXT_FIELDS: seq<string> := [
    "product", "log_type", "severity", "action", "protocol", "app", "user_name", "host_name", "rule_name", "message"]
  const INET_FIELDS: seq<string> := ["src_ip", "dst_ip"]
  const INT_FIELDS: seq<string> := ["src_port", "dst_port", "bytes_total"]
  const ROUTABLE_FIELDS: seq<string> := ["vendor", "product", "log_type"]
  const MAX_SCRUB_DEPTH: nat := 16

  function Column(ev: Ev, name: string): Cell {
    if name in ev.columns then ev.columns[name] else Absent
  }

  function SetColumn(ev: Ev, name: string, c: Cell): Ev {
    ev.(columns := ev.columns[name := c])
  }

  // ------------------------------------------------------- raw paths

  function Find(ms: seq<Member>, key: string): Option<Json> {
    if ms == [] then None else if ms[0].key == key then Some(ms[0].value) else Find(ms[1..], key)
  }

  /** `d[key] = v`: in place when the key is there, else at the end. */
  function Put(ms: seq<Member>, key: string, v: Json): seq<Member> {
    if ms == [] then [Member(key, v)]
    else if ms[0].key == key then [Member(key, v)] + ms[1..]
    else [ms[0]] + Put(ms[1..], key, v)
  }

  function RawGet(j: Json, path: seq<string>): Option<Json>
    decreases |path|
  {
    if path == [] then Some(j)
    else if !j.Obj? || Find(j.members, path[0]).None? then None
    else RawGet(Find(j.members, path[0]).value, path[1..])
  }

  /** `raw_set`: nothing when the key does not exist; masking never invents structure. */
  function RawSet(j: Json, path: seq<string>, v: Json): Option<Json>
    decreases |path|
  {
    if path == [] || !j.Obj? || Find(j.members, path[0]).None? then None
    else if |path| == 1 then Some(Obj(Put(j.members, path[0], v)))
    else match RawSet(Find(j.members, path[0]).value, path[1..], v)
      case None => None
      case Some(inner) => Some(Obj(Put(j.members, path[0], inner)))
  }

  lemma {:induction false} FindPut(ms: seq<Member>, key: string, v: Json, k: string)
    ensures Find(Put(ms, key, v), k) == if k == key then Some(v) else Find(ms, k)
  {
    if ms == [] {
      assert [Member(key, v)][1..] == [];
    } else if ms[0].key == key {
      assert ([Member(key, v)] + ms[1..])[1..] == ms[1..];
    } else {
      FindPut(ms[1..], key, v, k);
      assert ([ms[0]] + Put(ms[1..], key, v))[1..] == Put(ms[1..], key, v);
    }
  }

  /** Neither path lies on the other. */
  predicate Diverge(p: seq<string>, q: seq<string>) {
    !(p <= q) && !(q <= p)
  }

  lemma PrefixOfTail(p: seq<string>, q: seq<string>)
    requires p != [] && q != [] && p[0] == q[0]
    ensures p <= q <==> p[1..] <= q[1..]
  {
    assert p == [p[0]] + p[1..] && q == [q[0]] + q[1..];
    if p[1..] <= q[1..] {
      assert forall i :: 0 <= i < |p| ==> p[i] == if i == 0 then q[0] else q[1..][i - 1];
    }
  }

  /** A path can be set exactly where there is something; then it is there, and every diverging path is as before. */
  lemma {:induction false} RawSetMeans(j: Json, path: seq<string>, v: Json, other: seq<string>)
    ensures RawSet(j, path, v).Some? <==> path != [] && RawGet(j, path).Some?
    ensures RawSet(j, path, v).Some? ==>
              && RawGet(RawSet(j, path, v).value, path) == Some(v)
              && (Diverge(path, other) ==> RawGet(RawSet(j, path, v).value, other) == RawGet(j, other))
    decreases |path|
  {
    if path != [] && j.Obj? && Find(j.members, path[0]).Some? {
      var child := Find(j.members, path[0]).value;
      if |path| == 1 {
        assert path[1..] == [];
        FindPut(j.members, path[0], v, path[0]);
        if other != [] { FindPut(j.members, path[0], v, other[0]); }
      } else {
        RawSetMeans(child, path[1..], v, if other == [] then [] else other[1..]);
        if RawSet(child, path[1..], v).Some? {
          var inner := RawSet(child, path[1..], v).value;
          FindPut(j.members, path[0], inner, path[0]);
          if other != [] {
            FindPut(j.members, path[0], inner, other[0]);
            if other[0] == path[0] {
              PrefixOfTail(path, other);
              PrefixOfTail(other, path);
            }
          }
        }
      }
    }
  }

  // ------------------------------------------------------- rewriting every string

  /** What a transform leaves behind; on an exception, the half-done value. */
  datatype Walked<T> = Walked(value: T, changed: bool, raised: bool)

  /** `walk_strings`, with `fn` giving nothing when it raises. */
  function Walk(fn: string -> Option<string>, j: Json, depth: nat): Walked<Json>
    decreases j, 0
  {
    if depth > MAX_SCRUB_DEPTH then Walked(j, false, false)
    else match j
      case Obj(ms) => var w := WalkMembers(fn, ms, depth); Walked(Obj(w.value), w.changed, w.raised)
      case Arr(items) => var w := WalkItems(fn, items, depth); Walked(Arr(w.value), w.changed, w.raised)
      case _ => Walked(j, false, false)
  }

  /** One value of a container: strings are rewritten, containers entered one level deeper. */
  function WalkValue(fn: string -> Option<string>, v: Json, depth: nat): Walked<Json>
    decreases v, 1
  {
    match v
    case Str(s) =>
      var n := fn(s);
      if n.None? then Walked(v, false, true) else Walked(Str(n.value), n.value != s, false)
    case _ => Walk(fn, v, depth + 1)
  }

  function WalkMembers(fn: string -> Option<string>, ms: seq<Member>, depth: nat): Walked<seq<Member>>
    decreases ms
  {
    if ms == [] then Walked([], false, false)
    else
      var h := WalkValue(fn, ms[0].value, depth);
      var head := [Member(ms[0].key, h.value)];
      if h.raised then Walked(head + ms[1..], h.changed, true)
      else
        var t := WalkMembers(fn, ms[1..], depth);
        Walked(head + t.value, h.changed || t.changed, t.raised)
  }

  function WalkItems(fn: string -> Option<string>, items: seq<Json>, depth: nat): Walked<seq<Json>>
    decreases items
  {
    if items == [] then Walked([], false, false)
    else
      var h := WalkValue(fn, items[0], depth);
      if h.raised then Walked([h.value] + items[1..], h.changed, true)
      else
        var t := WalkItems(fn, items[1..], depth);
        Walked([h.value] + t.value, h.changed || t.changed, t.raised)
  }

  /** Every string the walk can reach satisfies `p`. */
  ghost predicate AllStrings(p: string -> bool, j: Json, depth: nat)
    decreases j, 0
  {
    depth > MAX_SCRUB_DEPTH ||
    match j
    case Obj(ms) => AllInMembers(p, ms, depth)
    case Arr(items) => AllInItems(p, items, depth)
    case _ => true
  }

  ghost predicate AllInValue(p: string -> bool, v: Json, depth: nat)
    decreases v, 1
  {
    match v
    case Str(s) => p(s)
    case _ => AllStrings(p, v, depth + 1)
  }

  ghost predicate AllInMembers(p: string -> bool, ms: seq<Member>, depth: nat)
    decreases ms
  {
    ms == [] || (AllInValue(p, ms[0].value, depth) && AllInMembers(p, ms[1..], depth))
  }

  ghost predicate AllInItems(p: string -> bool, items: seq<Json>, depth: nat)
    decreases items
  {
    items == [] || (AllInValue(p, items[0], depth) && AllInItems(p, items[1..], depth))
  }

  /** "Not changed" is the truth: without a change and without an exception nothing moved. */
  lemma {:induction false} WalkUnchanged(fn: string -> Option<string>, j: Json, depth: nat)
    ensures var w := Walk(fn, j, depth); !w.changed && !w.raised ==> w.value == j
    decreases j, 0
  {
    if depth <= MAX_SCRUB_DEPTH {
      match j
      case Obj(ms) => WalkMembersUnchanged(fn, ms, depth);
      case Arr(items) => WalkItemsUnchanged(fn, items, depth);
      case _ =>
    }
  }

  lemma WalkValueUnchanged(fn: string -> Option<string>, v: Json, depth: nat)
    ensures var w := WalkValue(fn, v, depth); !w.changed && !w.raised ==> w.value == v
    decreases v, 1
  {
    if !v.Str? { WalkUnchanged(fn, v, depth + 1); }
  }

  lemma {:induction false} WalkMembersUnchanged(fn: string -> Option<string>, ms: seq<Member>, depth: nat)
    ensures var w := WalkMembers(fn, ms, depth); !w.changed && !w.raised ==> w.value == ms
    decreases ms
  {
    if ms != [] {
      WalkValueUnchanged(fn, ms[0].value, depth);
      WalkMembersUnchanged(fn, ms[1..], depth);
    }
  }

  lemma {:induction false} WalkItemsUnchanged(fn: string -> Option<string>, items: seq<Json>, depth: nat)
    ensures var w := WalkItems(fn, items, depth); !w.changed && !w.raised ==> w.value == items
    decreases items
  {
    if items != [] {
      WalkValueUnchanged(fn, items[0], depth);
      WalkItemsUnchanged(fn, items[1..], depth);
    }
  }

  /** The rewriting has an answer for the string. */
  function Answers(fn: string -> Option<string>): string -> bool { s => fn(s).Some? }

  /**
   * What the walk reports: that it raised, exactly when the rewriting has no answer for some string in reach,
   * and else that it changed something, exactly when it did.
   */
  lemma {:induction false} WalkReports(fn: string -> Option<string>, j: Json, depth: nat)
    ensures var w := Walk(fn, j, depth);
            (w.raised <==> !AllStrings(Answers(fn), j, depth)) && (!w.raised ==> (w.changed <==> w.value != j))
    decreases j, 0
  {
    if depth <= MAX_SCRUB_DEPTH {
      match j
      case Obj(ms) => WalkMembersReport(fn, ms, depth);
      case Arr(items) => WalkItemsReport(fn, items, depth);
      case _ =>
    }
  }

  lemma WalkValueReports(fn: string -> Option<string>, v: Json, depth: nat)
    ensures var w := WalkValue(fn, v, depth);
            (w.raised <==> !AllInValue(Answers(fn), v, depth)) && (!w.raised ==> (w.changed <==> w.value != v))
    decreases v, 1
  {
    if !v.Str? { WalkReports(fn, v, depth + 1); }
  }

  lemma {:induction false} WalkMembersReport(fn: string -> Option<string>, ms: seq<Member>, depth: nat)
    ensures var w := WalkMembers(fn, ms, depth);
            (w.raised <==> !AllInMembers(Answers(fn), ms, depth)) && (!w.raised ==> (w.changed <==> w.value != ms))
    decreases ms
  {
    if ms != [] {
      WalkValueReports(fn, ms[0].value, depth);
      WalkMembersReport(fn, ms[1..], depth);
      assert ms == [ms[0]] + ms[1..];
      var w := WalkMembers(fn, ms, depth);
      if !w.raised {
        assert w.value[0].value == WalkValue(fn, ms[0].value, depth).value;
        assert w.value[1..] == WalkMembers(fn, ms[1..], depth).value;
      }
    }
  }

  lemma {:induction false} WalkItemsReport(fn: string -> Option<string>, items: seq<Json>, depth: nat)
    ensures var w := WalkItems(fn, items, depth);
            (w.raised <==> !AllInItems(Answers(fn), items, depth)) && (!w.raised ==> (w.changed <==> w.value != items))
    decreases items
  {
    if items != [] {
      WalkValueReports(fn, items[0], depth);
      WalkItemsReport(fn, items[1..], depth);
      assert items == [items[0]] + items[1..];
      var w := WalkItems(fn, items, depth);
      if !w.raised {
        assert w.value[0] == WalkValue(fn, items[0], depth).value;
        assert w.value[1..] == WalkItems(fn, items[1..], depth).value;
      }
    }
  }

  /** A rewriting that never raises and always establishes `p` establishes it everywhere in reach. */
  lemma {:induction false} WalkEstablishes(fn: string -> Option<string>, p: string -> bool, j: Json, depth: nat)
    requires forall s :: fn(s).Some? && p(fn(s).value)
    ensures var w := Walk(fn, j, depth); !w.raised && AllStrings(p, w.value, depth)
    decreases j, 0
  {
    if depth <= MAX_SCRUB_DEPTH {
      match j
      case Obj(ms) => WalkMembersEstablish(fn, p, ms, depth);
      case Arr(items) => WalkItemsEstablish(fn, p, items, depth);
      case _ =>
    }
  }

  lemma WalkValueEstablishes(fn: string -> Option<string>, p: string -> bool, v: Json, depth: nat)
    requires forall s :: fn(s).Some? && p(fn(s).value)
    ensures var w := WalkValue(fn, v, depth); !w.raised && AllInValue(p, w.value, depth)
    decreases v, 1
  {
    if !v.Str? { WalkEstablishes(fn, p, v, depth + 1); }
  }

  lemma {:induction false} WalkMembersEstablish(
    fn: string -> Option<string>, p: string -> bool, ms: seq<Member>, depth: nat)
    requires forall s :: fn(s).Some? && p(fn(s).value)
    ensures var w := WalkMembers(fn, ms, depth); !w.raised && AllInMembers(p, w.value, depth)
    decreases ms
  {
    if ms != [] {
      WalkValueEstablishes(fn, p, ms[0].value, depth);
      WalkMembersEstablish(fn, p, ms[1..], depth);
      var w := WalkMembers(fn, ms, depth);
      assert w.value[1..] == WalkMembers(fn, ms[1..], depth).value;
    }
  }

  lemma {:induction false} WalkItemsEstablish(
    fn: string -> Option<string>, p: string -> bool, items: seq<Json>, depth: nat)
    requires forall s :: fn(s).Some? && p(fn(s).value)
    ensures var w := WalkItems(fn, items, depth); !w.raised && AllInItems(p, w.value, depth)
    decreases items
  {
    if items != [] {
      WalkValueEstablishes(fn, p, items[0], depth);
      WalkItemsEstablish(fn, p, items[1..], depth);
      var w := WalkItems(fn, items, depth);
      assert w.value[1..] == WalkItems(fn, items[1..], depth).value;
    }
  }

  lemma NeverRaises(fn: string -> Option<string>, v: Json, depth: nat)
    requires forall s :: fn(s).Some?
    ensures !WalkValue(fn, v, depth).raised
  {
    if !v.Str? { WalkEstablishes(fn, s => true, v, depth + 1); }
  }

  lemma {:induction false} FindWalked(fn: string -> Option<string>, ms: seq<Member>, depth: nat, k: string)
    requires forall s :: fn(s).Some?
    ensures var w := WalkMembers(fn, ms, depth);
            && !w.raised
            && Find(w.value, k)
               == match Find(ms, k) case None => None case Some(v) => Some(WalkValue(fn, v, depth).value)
  {
    if ms != [] {
      FindWalked(fn, ms[1..], depth, k);
      NeverRaises(fn, ms[0].value, depth);
      var rest := WalkMembers(fn, ms[1..], depth).value;
      assert WalkMembers(fn, ms, depth).value[1..] == rest;
    }
  }

  /**
   * The walk, path by path: a string within reach is rewritten, one beyond it is not, other plain values
   * stay, and nothing appears or disappears.
   */
  lemma {:induction false} WalkedAt(fn: string -> Option<string>, ms: seq<Member>, path: seq<string>, depth: nat)
    requires path != [] && depth <= MAX_SCRUB_DEPTH && forall s :: fn(s).Some?
    ensures var before, after := RawGet(Obj(ms), path), RawGet(Walk(fn, Obj(ms), depth).value, path);
            match before
            case None => after == None
            case Some(Str(s)) => after == Some(Str(if depth + |path| <= MAX_SCRUB_DEPTH + 1 then fn(s).value else s))
            case Some(Obj(_)) => after.Some? && after.value.Obj?
            case Some(Arr(_)) => after.Some? && after.value.Arr?
            case Some(_) => after == before
    decreases |path|
  {
    FindWalked(fn, ms, depth, path[0]);
    if Find(ms, path[0]).Some? {
      var v := Find(ms, path[0]).value;
      if |path| == 1 {
        assert path[1..] == [];
      } else if v.Obj? && depth < MAX_SCRUB_DEPTH {
        WalkedAt(fn, v.members, path[1..], depth + 1);
      }
    }
  }
}

module IngestActions {
  import opened Prelude
  import opened Scrubbing
  import opened IngestEvents

  /** One regex redaction; `sub` gives nothing when the substitution raises. */
  datatype PatternSpec = PatternSpec(sub: string -> Option<string>, field: string, path: seq<string>)

  /** A loaded mask; the salted hashes are parameters. */
  datatype MaskSpec = MaskSpec(
    fields: seq<string>, rawKeys: seq<seq<string>>, patterns: seq<PatternSpec>,
    replacement: string, hashed: bool, scrub: bool,
    inetReplacement: Option<string>, intReplacement: Option<string>,
    hash: string -> string, pseudoIp: string -> string, hashRaw: Json -> string, uni: char -> bool)

  datatype RouteSpec = RouteSpec(wants: map<string, string>, index: Option<string>)

  /** A transform's effect on the event, whether it reports a change, and whether it raised. */
  type Effect = Walked<Ev>

  /** Go on with the next step unless the last one raised. */
  function Then(e: Effect, next: Ev -> Effect): Effect {
    if e.raised then e
    else var n := next(e.value); Walked(n.value, e.changed || n.changed, n.raised)
  }

  /** A step that says "not changed" without raising has changed nothing. */
  ghost predicate Honest(before: Ev, e: Effect) {
    !e.changed && !e.raised ==> e.value == before
  }

  lemma ThenHonest(before: Ev, e: Effect, next: Ev -> Effect)
    requires Honest(before, e) && Honest(e.value, next(e.value))
    ensures Honest(before, Then(e, next))
  {}

  // ------------------------------------------------------- masking columns

  function Shown(c: Cell): string {
    match c
    case Absent => ""
    case Text(s) => s
    case Num(r) => r
  }

  /** A column is scrubbed for as its text, or as its number written out. */
  lemma ShownMeans(c: Cell)
    ensures forall s :: c == Text(s) ==> Shown(c) == s
    ensures forall r :: c == Num(r) ==> Shown(c) == r
    ensures c == Absent ==> Shown(c) == ""
  {}

  predicate Blank(c: Cell) {
    c.Absent? || c == Text("")
  }

  /** What `_mask_column` writes, by the column's own type. */
  function Masked(spec: MaskSpec, name: string, cur: Cell): Cell {
    if name in INT_FIELDS then (if spec.intReplacement.Some? then Num(spec.intReplacement.value) else Absent)
    else if name in INET_FIELDS then
      if spec.hashed then Text(spec.pseudoIp(Shown(cur)))
      else if spec.inetReplacement.Some? then Text(spec.inetReplacement.value) else Absent
    else if spec.hashed then Text(spec.hash(Shown(cur))) else Text(spec.replacement)
  }

  /** The pair to scrub for a masked column; a cleared column is stood for by the text replacement. */
  function PairOf(spec: MaskSpec, name: string, cur: Cell): Pair {
    var masked := Masked(spec, name, cur);
    Pair(Shown(cur), if masked.Absent? then spec.replacement else Shown(masked))
  }

  /** The event and the pairs after the named columns have been masked in turn. */
  function MaskFields(spec: MaskSpec, names: seq<string>, ev: Ev): (Ev, seq<Pair>) {
    if names == [] then (ev, [])
    else
      var (e, pairs) := MaskFields(spec, names[..|names| - 1], ev);
      var name := names[|names| - 1];
      var cur := Column(e, name);
      if Blank(cur) then (e, pairs)
      else (SetColumn(e, name, Masked(spec, name, cur)), pairs + [PairOf(spec, name, cur)])
  }

  lemma {:induction false} MaskFieldsHonest(spec: MaskSpec, names: seq<string>, ev: Ev)
    ensures MaskFields(spec, names, ev).1 == [] ==> MaskFields(spec, names, ev).0 == ev
  {
    if names != [] { MaskFieldsHonest(spec, names[..|names| - 1], ev); }
  }

  // ------------------------------------------------------- what a mask leaves in the columns

  /** The columns of a list the event has something in. */
  function Filled(ev: Ev): string -> bool { name => !Blank(Column(ev, name)) }

  /** What stands for a column's value afterwards: what the column shows, or the text replacement when it is cleared. */
  function StandIn(spec: MaskSpec, ev: Ev, name: string): string {
    var after := Column(MaskFields(spec, spec.fields, ev).0, name);
    if after.Absent? then spec.replacement else Shown(after)
  }

  lemma {:induction false} MaskedFront(spec: MaskSpec, names: seq<string>, ev: Ev, name: string)
    requires NoDuplicates(names)
    ensures Column(MaskFields(spec, names, ev).0, name)
         == if name in names && !Blank(Column(ev, name)) then Masked(spec, name, Column(ev, name)) else Column(ev, name)
    ensures MaskFields(spec, names, ev).0.raw == ev.raw
  {
    if names != [] {
      var front, last := names[..|names| - 1], names[|names| - 1];
      assert names == front + [last] && last !in front;
      MaskedFront(spec, front, ev, name);
      MaskedFront(spec, front, ev, last);
    }
  }

  lemma {:induction false} PairsFront(spec: MaskSpec, names: seq<string>, ev: Ev)
    requires NoDuplicates(names)
    ensures MaskFields(spec, names, ev).1
         == Map((name: string) => PairOf(spec, name, Column(ev, name)), Filter(Filled(ev), names))
  {
    if names != [] {
      var front, last := names[..|names| - 1], names[|names| - 1];
      assert names == front + [last] && last !in front;
      PairsFront(spec, front, ev);
      MaskedFront(spec, front, ev, last);
      FilterAppend(Filled(ev), front, [last]);
    }
  }

  /**
   * A mask rewrites exactly its non-blank columns, each by its own type: a number gives way to a number or
   * NULL, an address to an address or NULL, a text to a text, and only hashing looks at the old value.
   */
  lemma MaskedColumns(spec: MaskSpec, ev: Ev, name: string)
    requires NoDuplicates(spec.fields)
    ensures var cur, after := Column(ev, name), Column(MaskFields(spec, spec.fields, ev).0, name);
            && (name !in spec.fields || cur.Absent? || cur == Text("") ==> after == cur)
            && (name in spec.fields && !cur.Absent? && cur != Text("") ==>
                  if name in INT_FIELDS then
                    match spec.intReplacement case Some(n) => after == Num(n) case None => after == Absent
                  else if spec.hashed then
                    after == Text(if name in INET_FIELDS then spec.pseudoIp(Shown(cur)) else spec.hash(Shown(cur)))
                  else if name in INET_FIELDS then
                    match spec.inetReplacement case Some(a) => after == Text(a) case None => after == Absent
                  else after == Text(spec.replacement))
    ensures MaskFields(spec, spec.fields, ev).0.raw == ev.raw
  {
    MaskedFront(spec, spec.fields, ev, name);
  }

  /** The pairs to scrub are, field by field, the text the event had and what stands for it afterwards. */
  lemma PairsAreOfTheEvent(spec: MaskSpec, ev: Ev, i: nat)
    requires NoDuplicates(spec.fields) && i < |Filter(Filled(ev), spec.fields)|
    ensures var name, pairs := Filter(Filled(ev), spec.fields)[i], MaskFields(spec, spec.fields, ev).1;
            && |pairs| == |Filter(Filled(ev), spec.fields)|
            && pairs[i] == Pair(Shown(Column(ev, name)), StandIn(spec, ev, name))
  {
    var named := Filter(Filled(ev), spec.fields);
    PairsFront(spec, spec.fields, ev);
    FilterIn(Filled(ev), spec.fields);
    assert named[i] in named;
    MaskedFront(spec, spec.fields, ev, named[i]);
  }

  // ------------------------------------------------------- masking raw keys

  function MaskRawKey(spec: MaskSpec, path: seq<string>, ev: Ev): Effect {
    var cur := RawGet(ev.raw, path);
    if cur.None? || cur.value == Nil || cur.value == Str("") then Walked(ev, false, false)
    else
      var masked := Str(if spec.hashed then spec.hashRaw(cur.value) else spec.replacement);
      match RawSet(ev.raw, path, masked)
      case None => Walked(ev, false, false)
      case Some(raw) => Walked(ev.(raw := raw), true, false)
  }

  function MaskRawKeys(spec: MaskSpec, paths: seq<seq<string>>, ev: Ev): Effect {
    if paths == [] || !ev.raw.Obj? then Walked(ev, false, false)
    else Then(MaskRawKeys(spec, paths[..|paths| - 1], ev), (e: Ev) => MaskRawKey(spec, paths[|paths| - 1], e))
  }

  // ------------------------------------------------------- patterns

  function PatternOnColumn(p: PatternSpec, ev: Ev): Effect {
    var cur := Column(ev, p.field);
    if p.field == "" || !cur.Text? || cur.s == "" then Walked(ev, false, false)
    else match p.sub(cur.s)
      case None => Walked(ev, false, true)
      case Some(t) =>
        if t != cur.s then Walked(SetColumn(ev, p.field, Text(t)), true, false) else Walked(ev, false, false)
  }

  function PatternOnRaw(p: PatternSpec, ev: Ev): Effect {
    var cur := RawGet(ev.raw, p.path);
    if p.path == [] || !ev.raw.Obj? || cur.None? || !cur.value.Str? || cur.value.s == "" then Walked(ev, false, false)
    else match p.sub(cur.value.s)
      case None => Walked(ev, false, true)
      case Some(t) =>
        if t == cur.value.s then Walked(ev, false, false)
        else match RawSet(ev.raw, p.path, Str(t))
          case None => Walked(ev, false, false)
          case Some(raw) => Walked(ev.(raw := raw), true, false)
  }

  function Patterns(ps: seq<PatternSpec>, ev: Ev): Effect {
    if ps == [] then Walked(ev, false, false)
    else
      var p := ps[|ps| - 1];
      Then(Then(Patterns(ps[..|ps| - 1], ev), (e: Ev) => PatternOnColumn(p, e)), (e: Ev) => PatternOnRaw(p, e))
  }

  // ------------------------------------------------------- the scrub sweep

  function ScrubColumn(spec: MaskSpec, pairs: seq<Pair>, name: string, ev: Ev): Effect {
    var cur := Column(ev, name);
    if !cur.Text? || cur.s == "" then Walked(ev, false, false)
    else
      var t := Scrub(spec.uni, pairs, cur.s);
      if t != cur.s then Walked(SetColumn(ev, name, Text(t)), true, false) else Walked(ev, false, false)
  }

  function ScrubColumns(spec: MaskSpec, pairs: seq<Pair>, names: seq<string>, ev: Ev): Effect {
    if names == [] then Walked(ev, false, false)
    else Then(ScrubColumns(spec, pairs, names[..|names| - 1], ev),
              (e: Ev) => ScrubColumn(spec, pairs, names[|names| - 1], e))
  }

  /** `walk_strings(raw, fn)`, when raw is a mapping. */
  function WalkRaw(fn: string -> Option<string>, ev: Ev): Effect {
    if !ev.raw.Obj? then Walked(ev, false, false)
    else var w := Walk(fn, ev.raw, 0); Walked(ev.(raw := w.value), w.changed, w.raised)
  }

  function Scrubber(spec: MaskSpec, pairs: seq<Pair>): string -> Option<string> {
    s => Some(Scrub(spec.uni, pairs, s))
  }

  function ScrubPairs(spec: MaskSpec, pairs: seq<Pair>, ev: Ev): Effect {
    if pairs == [] then Walked(ev, false, false)
    else Then(ScrubColumns(spec, pairs, TEXT_FIELDS, ev), (e: Ev) => WalkRaw(Scrubber(spec, pairs), e))
  }

  /** Column patterns are run over the whole of raw as well. */
  function ScrubPatterns(ps: seq<PatternSpec>, ev: Ev): Effect {
    if ps == [] then Walked(ev, false, false)
    else
      var p := ps[|ps| - 1];
      var front := ScrubPatterns(ps[..|ps| - 1], ev);
      if p.field == "" then front else Then(front, (e: Ev) => WalkRaw(p.sub, e))
  }

  /** `apply_mask` as a whole. */
  function Mask(spec: MaskSpec, ev: Ev): Effect {
    var (e, pairs) := MaskFields(spec, spec.fields, ev);
    var a := Then(Walked(e, pairs != [], false), (x: Ev) => MaskRawKeys(spec, spec.rawKeys, x));
    var b := Then(a, (x: Ev) => Patterns(spec.patterns, x));
    if !spec.scrub then b
    else Then(Then(b, (x: Ev) => ScrubPairs(spec, pairs, x)), (x: Ev) => ScrubPatterns(spec.patterns, x))
  }

  // ------------------------------------------------------- routing and stamping

  function RouteColumn(spec: RouteSpec, name: string, ev: Ev): Effect {
    if name in spec.wants && Column(ev, name) != Text(spec.wants[name])
    then Walked(SetColumn(ev, name, Text(spec.wants[name])), true, false)
    else Walked(ev, false, false)
  }

  function RouteColumns(spec: RouteSpec, names: seq<string>, ev: Ev): Effect {
    if names == [] then Walked(ev, false, false)
    else Then(RouteColumns(spec, names[..|names| - 1], ev), (e: Ev) => RouteColumn(spec, names[|names| - 1], e))
  }

  function RouteIndex(spec: RouteSpec, ev: Ev): Effect {
    if spec.index.Some? && ev.raw.Obj? && Find(ev.raw.members, "_index") != Some(Str(spec.index.value))
    then Walked(ev.(raw := Obj(Put(ev.raw.members, "_index", Str(spec.index.value)))), true, false)
    else Walked(ev, false, false)
  }

  /** `apply_route` as a whole. */
  function Route(spec: RouteSpec, ev: Ev): Effect {
    Then(RouteColumns(spec, ROUTABLE_FIELDS, ev), (e: Ev) => RouteIndex(spec, e))
  }

  /** `_stamp`: record the rule under `raw['_ingest_actions']`, once. */
  function Stamp(id: string, ev: Ev): Ev {
    if !ev.raw.Obj? then ev
    else
      var noted := Find(ev.raw.members, "_ingest_actions");
      var marks := if noted.Some? && noted.value.Arr? then noted.value.items else [];
      var marked := if Str(id) in marks then marks else marks + [Str(id)];
      ev.(raw := Obj(Put(ev.raw.members, "_ingest_actions", Arr(marked))))
  }

  // ------------------------------------------------------- what the other transforms do

  /**
   * Masking a key of `raw` rewrites what is there, unless it is nothing, null or empty; the columns and all
   * that lies on another path stay.
   */
  lemma MaskedKey(spec: MaskSpec, path: seq<string>, ev: Ev, other: seq<string>)
    requires path != []
    ensures var e, cur := MaskRawKey(spec, path, ev), RawGet(ev.raw, path);
            && !e.raised && e.value.columns == ev.columns
            && (cur == None || cur == Some(Nil) || cur == Some(Str("")) ==> e.value == ev && !e.changed)
            && (cur != None && cur != Some(Nil) && cur != Some(Str("")) ==>
                  && e.changed
                  && RawGet(e.value.raw, path)
                     == Some(Str(if spec.hashed then spec.hashRaw(cur.value) else spec.replacement))
                  && (Diverge(path, other) ==> RawGet(e.value.raw, other) == RawGet(ev.raw, other)))
  {
    var cur := RawGet(ev.raw, path);
    if cur.Some? {
      RawSetMeans(ev.raw, path, Str(if spec.hashed then spec.hashRaw(cur.value) else spec.replacement), other);
    }
  }

  /** There is something to mask: a value other than null and the empty text. */
  predicate Maskable(cur: Option<Json>) {
    cur.Some? && cur != Some(Nil) && cur != Some(Str(""))
  }

  /** What a masked key holds, given what it held. */
  function MaskedValue(spec: MaskSpec, cur: Option<Json>): Option<Json> {
    if cur.None? || cur == Some(Nil) || cur == Some(Str("")) then cur
    else Some(Str(if spec.hashed then spec.hashRaw(cur.value) else spec.replacement))
  }

  ghost predicate KeysDiverge(paths: seq<seq<string>>) {
    && (forall p :: p in paths ==> p != [])
    && forall i, j :: 0 <= i < j < |paths| ==> Diverge(paths[i], paths[j])
  }

  lemma FrontDiverges(paths: seq<seq<string>>)
    requires KeysDiverge(paths) && paths != []
    ensures var front, last := paths[..|paths| - 1], paths[|paths| - 1];
            && KeysDiverge(front) && last != [] && paths == front + [last]
            && forall p :: p in front ==> Diverge(p, last)
  {
    var front, last := paths[..|paths| - 1], paths[|paths| - 1];
    assert last in paths;
    forall p | p in front ensures p != [] && Diverge(p, last) {
      var i :| 0 <= i < |front| && front[i] == p;
      assert paths[i] == p && paths[i] in paths && Diverge(paths[i], paths[|front|]);
    }
    forall i, j | 0 <= i < j < |front| ensures Diverge(front[i], front[j]) {
      assert Diverge(paths[i], paths[j]);
    }
  }

  /** Keys on paths that diverge are masked each for itself, and nothing else in `raw` moves. */
  lemma {:induction false} MaskedKeys(spec: MaskSpec, paths: seq<seq<string>>, ev: Ev, path: seq<string>)
    requires KeysDiverge(paths)
    ensures var e := MaskRawKeys(spec, paths, ev);
            && !e.raised && e.value.columns == ev.columns
            && (e.changed <==> exists p :: p in paths && Maskable(RawGet(ev.raw, p)))
            && (path in paths ==> RawGet(e.value.raw, path) == MaskedValue(spec, RawGet(ev.raw, path)))
            && ((forall p :: p in paths ==> Diverge(p, path)) ==> RawGet(e.value.raw, path) == RawGet(ev.raw, path))
  {
    if paths != [] && ev.raw.Obj? {
      var front, last := paths[..|paths| - 1], paths[|paths| - 1];
      FrontDiverges(paths);
      MaskedKeys(spec, front, ev, path);
      MaskedKeys(spec, front, ev, last);
      MaskedKey(spec, last, MaskRawKeys(spec, front, ev).value, path);
    }
  }

  /**
   * Without sweep and patterns a mask rewrites its columns by their types and its keys of `raw`, and
   * nothing else.
   */
  lemma MaskWithoutSweep(spec: MaskSpec, ev: Ev, path: seq<string>)
    requires spec.patterns == [] && !spec.scrub && NoDuplicates(spec.fields) && KeysDiverge(spec.rawKeys)
    ensures var e := Mask(spec, ev);
            && !e.raised && e.value.columns == MaskFields(spec, spec.fields, ev).0.columns
            && (e.changed <==>
                  || (exists name :: name in spec.fields && !Blank(Column(ev, name)))
                  || exists p :: p in spec.rawKeys && Maskable(RawGet(ev.raw, p)))
            && (path in spec.rawKeys ==> RawGet(e.value.raw, path) == MaskedValue(spec, RawGet(ev.raw, path)))
            && ((forall p :: p in spec.rawKeys ==> Diverge(p, path)) ==>
                  RawGet(e.value.raw, path) == RawGet(ev.raw, path))
  {
    MaskedFront(spec, spec.fields, ev, "");
    MaskedKeys(spec, spec.rawKeys, MaskFields(spec, spec.fields, ev).0, path);
    PairsFront(spec, spec.fields, ev);
    FilterIn(Filled(ev), spec.fields);
    var named := Filter(Filled(ev), spec.fields);
    if named != [] { assert named[0] in named; }
  }

  /** A pattern on a column rewrites its text, if it has any, and nothing else; it raises only if that raises. */
  lemma PatternOnColumnMeans(p: PatternSpec, ev: Ev, name: string)
    ensures var e, cur := PatternOnColumn(p, ev), Column(ev, p.field);
            var applies := p.field != "" && cur.Text? && cur.s != "";
            && (e.raised <==> applies && p.sub(cur.s).None?)
            && (e.raised ==> e.value == ev)
            && (!e.raised ==>
                  && e.value.raw == ev.raw && (e.changed <==> e.value != ev)
                  && Column(e.value, name)
                     == if applies && name == p.field then Text(p.sub(cur.s).value) else Column(ev, name))
  {
    if Column(ev, p.field).Text? { assert Column(PatternOnColumn(p, ev).value, p.field).Text?; }
  }

  /** A pattern on a path of `raw` rewrites the text there, if there is any, and no diverging path. */
  lemma PatternOnRawMeans(p: PatternSpec, ev: Ev, other: seq<string>)
    ensures var e, cur := PatternOnRaw(p, ev), RawGet(ev.raw, p.path);
            var applies := ev.raw.Obj? && p.path != [] && cur.Some? && cur.value.Str? && cur.value.s != "";
            && (e.raised <==> applies && p.sub(cur.value.s).None?)
            && (e.raised || !applies ==> e.value == ev)
            && (!e.raised ==> e.value.columns == ev.columns && (e.changed <==> e.value != ev))
            && (!e.raised && applies ==>
                  && RawGet(e.value.raw, p.path) == Some(Str(p.sub(cur.value.s).value))
                  && (Diverge(p.path, other) ==> RawGet(e.value.raw, other) == RawGet(ev.raw, other)))
  {
    var cur := RawGet(ev.raw, p.path);
    if cur.Some? && cur.value.Str? && p.sub(cur.value.s).Some? {
      RawSetMeans(ev.raw, p.path, Str(p.sub(cur.value.s).value), other);
    }
  }

  lemma ScrubColumnTells(spec: MaskSpec, pairs: seq<Pair>, name: string, ev: Ev, other: string)
    ensures var e := ScrubColumn(spec, pairs, name, ev);
            && !e.raised && (e.changed ==> Column(e.value, name) != Column(ev, name))
            && (other != name || !e.changed ==> Column(e.value, other) == Column(ev, other))
  {}

  /** A column reported as scrubbed shows something else than before. */
  lemma {:induction false} SweepTells(
    spec: MaskSpec, pairs: seq<Pair>, names: seq<string>, ev: Ev) returns (name: string)
    requires NoDuplicates(names)
    ensures forall other :: other !in names ==>
              Column(ScrubColumns(spec, pairs, names, ev).value, other) == Column(ev, other)
    ensures ScrubColumns(spec, pairs, names, ev).changed ==>
              name in names && Column(ScrubColumns(spec, pairs, names, ev).value, name) != Column(ev, name)
  {
    name := "";
    if names != [] {
      var front, last := names[..|names| - 1], names[|names| - 1];
      assert names == front + [last] && last !in front;
      name := SweepTells(spec, pairs, front, ev);
      var mid := ScrubColumns(spec, pairs, front, ev).value;
      forall other { ScrubColumnTells(spec, pairs, last, mid, other); }
      ScrubColumnsHonest(spec, pairs, front, ev);
      if ScrubColumn(spec, pairs, last, mid).changed { name := last; }
    }
  }

  /** The sweep over the columns scrubs each text column it is given, and reports a change exactly when there is one. */
  lemma {:induction false} SweptColumns(spec: MaskSpec, pairs: seq<Pair>, names: seq<string>, ev: Ev, name: string)
    requires NoDuplicates(names)
    ensures var e := ScrubColumns(spec, pairs, names, ev);
            && !e.raised && e.value.raw == ev.raw && (e.changed ==> e.value != ev)
            && Column(e.value, name)
               == (if name in names && Column(ev, name).Text? && Column(ev, name).s != ""
                   then Text(Scrub(spec.uni, pairs, Column(ev, name).s)) else Column(ev, name))
  {
    if names != [] {
      var front, last := names[..|names| - 1], names[|names| - 1];
      assert names == front + [last] && last !in front;
      SweptColumns(spec, pairs, front, ev, name);
      SweptColumns(spec, pairs, front, ev, last);
      var moved := SweepTells(spec, pairs, names, ev);
    }
  }

  /** The sweep over `raw` says the truth as well. */
  lemma WalkRawReports(fn: string -> Option<string>, ev: Ev)
    ensures var e := WalkRaw(fn, ev);
            && e.value.columns == ev.columns
            && (e.raised <==> ev.raw.Obj? && !AllStrings(Answers(fn), ev.raw, 0))
            && (!e.raised ==> (e.changed <==> e.value != ev))
  {
    WalkReports(fn, ev.raw, 0);
  }

  lemma {:induction false} RoutedColumns(spec: RouteSpec, names: seq<string>, ev: Ev, name: string)
    ensures var e := RouteColumns(spec, names, ev);
            && !e.raised && e.value.raw == ev.raw
            && Column(e.value, name)
               == (if name in names && name in spec.wants then Text(spec.wants[name]) else Column(ev, name))
  {
    if names != [] {
      var front, last := names[..|names| - 1], names[|names| - 1];
      assert names == front + [last];
      RoutedColumns(spec, front, ev, name);
      RoutedColumns(spec, front, ev, last);
    }
  }

  /**
   * A route sets the routable columns it names, and `_index` of a `raw` that is an object when it names an
   * index; everything else stays, and it reports a change exactly when there is one.
   */
  lemma RouteMeans(spec: RouteSpec, ev: Ev, name: string, key: string)
    ensures var e := Route(spec, ev);
            && !e.raised && (e.changed <==> e.value != ev)
            && Column(e.value, name)
               == (if name in ROUTABLE_FIELDS && name in spec.wants then Text(spec.wants[name]) else Column(ev, name))
            && (spec.index.None? || !ev.raw.Obj? ==> e.value.raw == ev.raw)
            && (spec.index.Some? && ev.raw.Obj? ==>
                  && e.value.raw.Obj?
                  && Find(e.value.raw.members, key)
                     == if key == "_index" then Some(Str(spec.index.value)) else Find(ev.raw.members, key))
  {
    var front := RouteColumns(spec, ROUTABLE_FIELDS, ev);
    RoutedColumns(spec, ROUTABLE_FIELDS, ev, name);
    RouteHonest(spec, ev);
    RouteTells(spec, ROUTABLE_FIELDS, ev);
    if spec.index.Some? && ev.raw.Obj? {
      FindPut(ev.raw.members, "_index", Str(spec.index.value), key);
      FindPut(ev.raw.members, "_index", Str(spec.index.value), "_index");
    }
  }

  /** A column reported as rerouted holds something else than before. */
  lemma {:induction false} RouteTells(spec: RouteSpec, names: seq<string>, ev: Ev)
    ensures RouteColumns(spec, names, ev).changed ==>
              exists name :: Column(RouteColumns(spec, names, ev).value, name) != Column(ev, name)
  {
    if names != [] {
      var front, last := names[..|names| - 1], names[|names| - 1];
      RouteTells(spec, front, ev);
      RoutedColumns(spec, front, ev, last);
      RoutedColumns(spec, names, ev, last);
      if RouteColumns(spec, front, ev).changed {
        var name :| Column(RouteColumns(spec, front, ev).value, name) != Column(ev, name);
        RoutedColumns(spec, front, ev, name);
        RoutedColumns(spec, names, ev, name);
        assert names == front + [last];
      }
    }
  }

  /** The marks a row carries already. */
  function Marks(ev: Ev): seq<Json> {
    if ev.raw.Obj? && Find(ev.raw.members, "_ingest_actions").Some?
       && Find(ev.raw.members, "_ingest_actions").value.Arr?
    then Find(ev.raw.members, "_ingest_actions").value.items
    else []
  }

  /** A stamp adds the rule to the marks, once, behind those there; columns and other keys stay. */
  lemma StampMeans(id: string, ev: Ev, key: string)
    ensures var e := Stamp(id, ev);
            && e.columns == ev.columns && (!ev.raw.Obj? ==> e == ev)
            && (ev.raw.Obj? ==>
                  && e.raw.Obj? && Str(id) in Marks(e) && Marks(ev) <= Marks(e)
                  && |Marks(e)| == |Marks(ev)| + (if Str(id) in Marks(ev) then 0 else 1)
                  && (key != "_ingest_actions" ==> Find(e.raw.members, key) == Find(ev.raw.members, key)))
  {
    if ev.raw.Obj? {
      var marks := Marks(ev);
      var marked := Arr(if Str(id) in marks then marks else marks + [Str(id)]);
      FindPut(ev.raw.members, "_ingest_actions", marked, key);
      FindPut(ev.raw.members, "_ingest_actions", marked, "_ingest_actions");
    }
  }

  // ------------------------------------------------------- "not changed" is the truth

  lemma {:induction false} MaskRawKeysHonest(spec: MaskSpec, paths: seq<seq<string>>, ev: Ev)
    ensures Honest(ev, MaskRawKeys(spec, paths, ev))
  {
    if paths != [] && ev.raw.Obj? {
      var front := MaskRawKeys(spec, paths[..|paths| - 1], ev);
      MaskRawKeysHonest(spec, paths[..|paths| - 1], ev);
      ThenHonest(ev, front, (e: Ev) => MaskRawKey(spec, paths[|paths| - 1], e));
    }
  }

  lemma {:induction false} PatternsHonest(ps: seq<PatternSpec>, ev: Ev)
    ensures Honest(ev, Patterns(ps, ev))
  {
    if ps != [] {
      var p := ps[|ps| - 1];
      var front := Patterns(ps[..|ps| - 1], ev);
      var f, g := (e: Ev) => PatternOnColumn(p, e), (e: Ev) => PatternOnRaw(p, e);
      PatternsHonest(ps[..|ps| - 1], ev);
      ThenHonest(ev, front, f);
      ThenHonest(ev, Then(front, f), g);
    }
  }

  lemma {:induction false} ScrubColumnsHonest(spec: MaskSpec, pairs: seq<Pair>, names: seq<string>, ev: Ev)
    ensures Honest(ev, ScrubColumns(spec, pairs, names, ev))
    ensures !ScrubColumns(spec, pairs, names, ev).raised
    ensures ScrubColumns(spec, pairs, names, ev).value.raw == ev.raw
  {
    if names != [] { ScrubColumnsHonest(spec, pairs, names[..|names| - 1], ev); }
  }

  lemma WalkRawHonest(fn: string -> Option<string>, ev: Ev)
    ensures Honest(ev, WalkRaw(fn, ev))
  {
    WalkUnchanged(fn, ev.raw, 0);
  }

  lemma ScrubPairsHonest(spec: MaskSpec, pairs: seq<Pair>, ev: Ev)
    ensures Honest(ev, ScrubPairs(spec, pairs, ev))
  {
    var front := ScrubColumns(spec, pairs, TEXT_FIELDS, ev);
    ScrubColumnsHonest(spec, pairs, TEXT_FIELDS, ev);
    WalkRawHonest(Scrubber(spec, pairs), front.value);
    ThenHonest(ev, front, (e: Ev) => WalkRaw(Scrubber(spec, pairs), e));
  }

  lemma {:induction false} ScrubPatternsHonest(ps: seq<PatternSpec>, ev: Ev)
    ensures Honest(ev, ScrubPatterns(ps, ev))
  {
    if ps != [] {
      var p := ps[|ps| - 1];
      var front := ScrubPatterns(ps[..|ps| - 1], ev);
      ScrubPatternsHonest(ps[..|ps| - 1], ev);
      WalkRawHonest(p.sub, front.value);
      ThenHonest(ev, front, (e: Ev) => WalkRaw(p.sub, e));
    }
  }

  /** `apply_mask` returning False, without an exception, has left the event as it was. */
  lemma MaskHonest(spec: MaskSpec, ev: Ev)
    ensures Honest(ev, Mask(spec, ev))
  {
    var (e, pairs) := MaskFields(spec, spec.fields, ev);
    MaskFieldsHonest(spec, spec.fields, ev);
    var start: Effect := Walked(e, pairs != [], false);
    var f, g := (x: Ev) => MaskRawKeys(spec, spec.rawKeys, x), (x: Ev) => Patterns(spec.patterns, x);
    var h, k := (x: Ev) => ScrubPairs(spec, pairs, x), (x: Ev) => ScrubPatterns(spec.patterns, x);
    MaskRawKeysHonest(spec, spec.rawKeys, e);
    ThenHonest(ev, start, f);
    var a := Then(start, f);
    PatternsHonest(spec.patterns, a.value);
    ThenHonest(ev, a, g);
    var b := Then(a, g);
    ScrubPairsHonest(spec, pairs, b.value);
    ThenHonest(ev, b, h);
    var c := Then(b, h);
    ScrubPatternsHonest(spec.patterns, c.value);
    ThenHonest(ev, c, k);
  }

  lemma {:induction false} RouteColumnsHonest(spec: RouteSpec, names: seq<string>, ev: Ev)
    ensures Honest(ev, RouteColumns(spec, names, ev))
  {
    if names != [] { RouteColumnsHonest(spec, names[..|names| - 1], ev); }
  }

  /** `apply_route` returning False has left the event as it was. */
  lemma RouteHonest(spec: RouteSpec, ev: Ev)
    ensures Honest(ev, Route(spec, ev))
  {
    RouteColumnsHonest(spec, ROUTABLE_FIELDS, ev);
    ThenHonest(ev, RouteColumns(spec, ROUTABLE_FIELDS, ev), (e: Ev) => RouteIndex(spec, e));
  }

  // ------------------------------------------------------- masked values are gone

  /** Every maskable text column (`vendor` is not one) and every string of raw within reach satisfies `p`. */
  ghost predicate Everywhere(p: string -> bool, ev: Ev) {
    && (forall name :: name in TEXT_FIELDS && Column(ev, name).Text? && Column(ev, name).s != ""
          ==> p(Column(ev, name).s))
    && (ev.raw.Obj? ==> AllStrings(p, ev.raw, 0))
  }

  lemma {:induction false} ColumnsScrubbed(
    spec: MaskSpec, pairs: seq<Pair>, p: string -> bool, names: seq<string>, ev: Ev)
    requires forall s :: p(Scrub(spec.uni, pairs, s))
    ensures var e := ScrubColumns(spec, pairs, names, ev);
            && !e.raised && e.value.raw == ev.raw
            && forall name :: name in names && Column(e.value, name).Text? && Column(e.value, name).s != ""
                 ==> p(Column(e.value, name).s)
  {
    if names != [] {
      var k := |names| - 1;
      ColumnsScrubbed(spec, pairs, p, names[..k], ev);
      assert names == names[..k] + [names[k]];
      var front := ScrubColumns(spec, pairs, names[..k], ev).value;
      assert p(Scrub(spec.uni, pairs, Shown(Column(front, names[k]))));
    }
  }

  lemma SweepEstablishes(spec: MaskSpec, pairs: seq<Pair>, p: string -> bool, ev: Ev)
    requires pairs != [] && forall s :: p(Scrub(spec.uni, pairs, s))
    ensures var e := ScrubPairs(spec, pairs, ev); !e.raised && Everywhere(p, e.value)
  {
    ColumnsScrubbed(spec, pairs, p, TEXT_FIELDS, ev);
    var front := ScrubColumns(spec, pairs, TEXT_FIELDS, ev).value;
    var fn := Scrubber(spec, pairs);
    forall s ensures fn(s).Some? && p(fn(s).value) { assert p(Scrub(spec.uni, pairs, s)); }
    WalkEstablishes(fn, p, front.raw, 0);
  }

  lemma {:induction false} RawKeysNeverRaise(spec: MaskSpec, paths: seq<seq<string>>, ev: Ev)
    ensures !MaskRawKeys(spec, paths, ev).raised
  {
    if paths != [] { RawKeysNeverRaise(spec, paths[..|paths| - 1], ev); }
  }

  /** With no patterns, what `apply_mask` ends with is the sweep over its own pairs. */
  lemma MaskEndsInSweep(spec: MaskSpec, p: string -> bool, ev: Ev)
    requires spec.patterns == [] && spec.scrub && MaskFields(spec, spec.fields, ev).1 != []
    requires forall s :: p(Scrub(spec.uni, MaskFields(spec, spec.fields, ev).1, s))
    ensures var e := Mask(spec, ev); !e.raised && e.changed && Everywhere(p, e.value)
  {
    var (e, pairs) := MaskFields(spec, spec.fields, ev);
    RawKeysNeverRaise(spec, spec.rawKeys, e);
    var start: Effect := Walked(e, pairs != [], false);
    var a := Then(start, (x: Ev) => MaskRawKeys(spec, spec.rawKeys, x));
    var b := Then(a, (x: Ev) => Patterns(spec.patterns, x));
    SweepEstablishes(spec, pairs, p, b.value);
  }

  lemma FilterFrom(p: string -> bool, s: seq<string>, k: nat)
    requires k < |s| && p(s[k])
    ensures var i := |Filter(p, s[..k])|; i < |Filter(p, s)| && Filter(p, s)[i] == s[k]
    ensures Filter(p, s) == Filter(p, s[..k]) + [s[k]] + Filter(p, s[k + 1..])
  {
    assert s == s[..k] + [s[k]] + s[k + 1..];
    FilterAppend(p, s[..k] + [s[k]], s[k + 1..]);
    FilterAppend(p, s[..k], [s[k]]);
  }

  /** What is filtered out of the list behind `k` lies behind it in the list. */
  lemma FilterBehind(p: string -> bool, s: seq<string>, k: nat, j: nat) returns (m: nat)
    requires k < |s| && p(s[k]) && |Filter(p, s[..k])| < j < |Filter(p, s)|
    ensures k < m < |s| && p(s[m]) && s[m] == Filter(p, s)[j]
  {
    var rest := s[k + 1..];
    FilterFrom(p, s, k);
    var front, back := Filter(p, s[..k]) + [s[k]], Filter(p, rest);
    assert Filter(p, s) == front + back;
    var x := back[j - |front|];
    assert x == (front + back)[j] && x in back;
    FilterIn(p, rest);
    var n :| 0 <= n < |rest| && rest[n] == x;
    m := k + 1 + n;
  }

  /** The fields behind `k` in the list are the pairs behind its own. */
  lemma PairsBehind(spec: MaskSpec, ev: Ev, k: nat, j: nat)
    requires NoDuplicates(spec.fields) && k < |spec.fields| && Filled(ev)(spec.fields[k])
    requires |Filter(Filled(ev), spec.fields[..k])| < j < |MaskFields(spec, spec.fields, ev).1|
    ensures exists m :: k < m < |spec.fields| && Filled(ev)(spec.fields[m])
              && MaskFields(spec, spec.fields, ev).1[j]
                 == Pair(Shown(Column(ev, spec.fields[m])), StandIn(spec, ev, spec.fields[m]))
  {
    PairsFront(spec, spec.fields, ev);
    var m := FilterBehind(Filled(ev), spec.fields, k, j);
    PairsAreOfTheEvent(spec, ev, j);
  }

  /**
   * Scrubbing really removes a long value: when a masked column of the event holds a text of eight or more
   * characters that its stand-in does not rebuild, and the stand-ins of the columns masked after it are
   * apart from it, the text is left in no maskable text column and no string of raw within the walk's depth.
   */
  lemma LongOriginalsAreGone(spec: MaskSpec, ev: Ev, k: nat)
    requires spec.patterns == [] && spec.scrub && NoDuplicates(spec.fields) && k < |spec.fields|
    requires var o := Shown(Column(ev, spec.fields[k]));
             |o| >= MIN_SUBSTRING_LEN && !Rebuilds(o, StandIn(spec, ev, spec.fields[k]))
    requires forall m :: k < m < |spec.fields| && !Blank(Column(ev, spec.fields[m]))
               && Shown(Column(ev, spec.fields[m])) != Shown(Column(ev, spec.fields[k]))
               ==> Apart(Shown(Column(ev, spec.fields[k])), StandIn(spec, ev, spec.fields[m]))
    ensures var o := Shown(Column(ev, spec.fields[k]));
            var e := Mask(spec, ev);
            !e.raised && Everywhere((s: string) => !Occurs(o, s), e.value)
  {
    var o, pairs := Shown(Column(ev, spec.fields[k])), MaskFields(spec, spec.fields, ev).1;
    var p := (s: string) => !Occurs(o, s);
    var i := |Filter(Filled(ev), spec.fields[..k])|;
    FilterFrom(Filled(ev), spec.fields, k);
    PairsAreOfTheEvent(spec, ev, i);
    forall j | i < j < |pairs| && pairs[j].original != o ensures Apart(o, pairs[j].replacement) {
      PairsBehind(spec, ev, k, j);
    }
    forall s ensures p(Scrub(spec.uni, pairs, s)) { LongValueIsGone(spec.uni, pairs, i, s); }
    MaskEndsInSweep(spec, p, ev);
  }

  lemma {:induction false} MaskRawKeysColumns(spec: MaskSpec, paths: seq<seq<string>>, ev: Ev)
    ensures MaskRawKeys(spec, paths, ev).value.columns == ev.columns
  {
    if paths != [] { MaskRawKeysColumns(spec, paths[..|paths| - 1], ev); }
  }

  lemma OnePattern(p: PatternSpec, ev: Ev)
    requires forall s :: p.sub(s).Some?
    ensures var e := Patterns([p], ev);
            && !e.raised && e.value == PatternOnRaw(p, PatternOnColumn(p, ev).value).value
    ensures ScrubPatterns([p], ev).value == (if p.field == "" then ev else WalkRaw(p.sub, ev).value)
    ensures ScrubPatterns([p], ev).raised == (p.field != "" && WalkRaw(p.sub, ev).raised)
  {
    assert [p][..0] == [];
  }

  /**
   * A pattern on a column is swept over `raw` as well: when applying it twice is applying it once, nothing is
   * left for it to redact, neither in the column nor in any string within the walk's depth.
   */
  lemma PatternRedactsEverywhere(spec: MaskSpec, p: PatternSpec, ev: Ev)
    requires spec.fields == [] && spec.patterns == [p] && p.field != "" && spec.scrub
    requires forall s :: p.sub(s).Some? && p.sub(p.sub(s).value) == p.sub(s)
    ensures var e, clean := Mask(spec, ev), (s: string) => p.sub(s) == Some(s);
            && !e.raised
            && (Column(ev, p.field).Text? && Column(ev, p.field).s != "" ==>
                  Column(e.value, p.field) == Text(p.sub(Column(ev, p.field).s).value))
            && (e.value.raw.Obj? ==> AllStrings(clean, e.value.raw, 0))
  {
    RawKeysNeverRaise(spec, spec.rawKeys, ev);
    MaskRawKeysColumns(spec, spec.rawKeys, ev);
    var a := MaskRawKeys(spec, spec.rawKeys, ev).value;
    var b := PatternOnRaw(p, PatternOnColumn(p, a).value).value;
    OnePattern(p, a);
    OnePattern(p, b);
    assert Mask(spec, ev).value == WalkRaw(p.sub, b).value;
    WalkEstablishes(p.sub, (s: string) => p.sub(s) == Some(s), b.raw, 0);
  }

  /** Of the fields only `name` has something in it. */
  predicate OnlyFilled(spec: MaskSpec, ev: Ev, name: string) {
    name in spec.fields && forall other :: other in spec.fields ==> (Blank(Column(ev, other)) <==> other != name)
  }

  lemma {:induction false} FilterOnly(p: string -> bool, s: seq<string>, x: string)
    requires NoDuplicates(s) && forall y :: y in s ==> (p(y) <==> y == x)
    ensures Filter(p, s) == if x in s then [x] else []
  {
    if s != [] {
      assert s == [s[0]] + s[1..] && s[0] !in s[1..];
      FilterOnly(p, s[1..], x);
    }
  }

  /**
   * A masked column's short text that its stand-in does not rebuild is left as a whole token nowhere the
   * sweep reaches, when it is the only text the mask finds.
   */
  lemma ShortOriginalIsGone(spec: MaskSpec, ev: Ev, name: string)
    requires spec.patterns == [] && spec.scrub && NoDuplicates(spec.fields) && OnlyFilled(spec, ev, name)
    requires var o := Shown(Column(ev, name));
             0 < |o| < MIN_SUBSTRING_LEN && !TokenRebuilds(spec.uni, o, StandIn(spec, ev, name))
    ensures var o := Shown(Column(ev, name));
            var e := Mask(spec, ev);
            !e.raised && Everywhere((s: string) => !HasToken(spec.uni, o, None, s), e.value)
  {
    var o := Shown(Column(ev, name));
    var p := (s: string) => !HasToken(spec.uni, o, None, s);
    FilterOnly(Filled(ev), spec.fields, name);
    PairsAreOfTheEvent(spec, ev, 0);
    var pair := Pair(o, StandIn(spec, ev, name));
    assert MaskFields(spec, spec.fields, ev).1 == [pair];
    forall s ensures p(Scrub(spec.uni, [pair], s)) { ScrubOneToken(spec.uni, pair, s); }
    MaskEndsInSweep(spec, p, ev);
  }

  // ------------------------------------------------------- the transforms in place

  class Event {
    var columns: map<string, Cell>
    var raw: Json

    function Now(): Ev
      reads this
    {
      Ev(columns, raw)
    }

    constructor (ev: Ev)
      ensures Now() == ev
    {
      columns, raw := ev.columns, ev.raw;
    }
  }

  method Overwrite(e: Event, ev: Ev)
    modifies e
    ensures e.Now() == ev
  {
    e.columns, e.raw := ev.columns, ev.raw;
  }

  /** The loop over `spec.fields`. */
  method MaskColumns(e: Event, spec: MaskSpec) returns (pairs: seq<Pair>)
    modifies e
    ensures (e.Now(), pairs) == MaskFields(spec, spec.fields, old(e.Now()))
  {
    pairs := [];
    for i := 0 to |spec.fields|
      invariant (e.Now(), pairs) == MaskFields(spec, spec.fields[..i], old(e.Now()))
    {
      var name := spec.fields[i];
      assert spec.fields[..i + 1][..i] == spec.fields[..i] && spec.fields[..i + 1][i] == name;
      var cur := Column(e.Now(), name);
      if !Blank(cur) {
        pairs := pairs + [PairOf(spec, name, cur)];
        e.columns := e.columns[name := Masked(spec, name, cur)];
      }
    }
    assert spec.fields[..|spec.fields|] == spec.fields;
  }

  /** The loop over `spec.raw_keys`. */
  method MaskKeys(e: Event, spec: MaskSpec) returns (changed: bool)
    modifies e
    ensures MaskRawKeys(spec, spec.rawKeys, old(e.Now())) == Walked(e.Now(), changed, false)
  {
    changed := false;
    if !e.raw.Obj? {
      return;
    }
    for i := 0 to |spec.rawKeys|
      invariant e.raw.Obj?
      invariant MaskRawKeys(spec, spec.rawKeys[..i], old(e.Now())) == Walked(e.Now(), changed, false)
    {
      var path := spec.rawKeys[i];
      assert spec.rawKeys[..i + 1][..i] == spec.rawKeys[..i] && spec.rawKeys[..i + 1][i] == path;
      var cur := RawGet(e.raw, path);
      if cur.Some? && cur.value != Nil && cur.value != Str("") {
        var raw := RawSet(e.raw, path, Str(if spec.hashed then spec.hashRaw(cur.value) else spec.replacement));
        if raw.Some? {
          e.raw := raw.value;
          changed := true;
        }
      }
    }
    assert spec.rawKeys[..|spec.rawKeys|] == spec.rawKeys;
  }

  /** The loop over `spec.patterns`; an exception leaves it where it stands. */
  method ApplyPatterns(e: Event, ps: seq<PatternSpec>) returns (changed: bool, raised: bool)
    modifies e
    ensures Patterns(ps, old(e.Now())) == Walked(e.Now(), changed, raised)
  {
    changed, raised := false, false;
    for i := 0 to |ps|
      invariant Patterns(ps[..i], old(e.Now())) == Walked(e.Now(), changed, raised)
    {
      var p := ps[i];
      assert ps[..i + 1][..i] == ps[..i] && ps[..i + 1][i] == p;
      if !raised {
        var a := PatternOnColumn(p, e.Now());
        Overwrite(e, a.value);
        changed, raised := changed || a.changed, a.raised;
        if !raised {
          var b := PatternOnRaw(p, e.Now());
          Overwrite(e, b.value);
          changed, raised := changed || b.changed, b.raised;
        }
      }
    }
    assert ps[..|ps|] == ps;
  }

  /** `_scrub_columns`. */
  method SweepColumns(e: Event, spec: MaskSpec, pairs: seq<Pair>) returns (changed: bool)
    modifies e
    ensures ScrubColumns(spec, pairs, TEXT_FIELDS, old(e.Now())) == Walked(e.Now(), changed, false)
  {
    changed := false;
    for i := 0 to |TEXT_FIELDS|
      invariant ScrubColumns(spec, pairs, TEXT_FIELDS[..i], old(e.Now())) == Walked(e.Now(), changed, false)
    {
      var name := TEXT_FIELDS[i];
      assert TEXT_FIELDS[..i + 1][..i] == TEXT_FIELDS[..i] && TEXT_FIELDS[..i + 1][i] == name;
      var cur := Column(e.Now(), name);
      if cur.Text? && cur.s != "" {
        var t := ScrubText(spec.uni, pairs, cur.s);
        if t != cur.s {
          e.columns := e.columns[name := Text(t)];
          changed := true;
        }
      }
    }
    assert TEXT_FIELDS[..|TEXT_FIELDS|] == TEXT_FIELDS;
  }

  /** The scrub sweep's loop over the column patterns. */
  method SweepPatterns(e: Event, ps: seq<PatternSpec>) returns (changed: bool, raised: bool)
    modifies e
    ensures ScrubPatterns(ps, old(e.Now())) == Walked(e.Now(), changed, raised)
  {
    changed, raised := false, false;
    for i := 0 to |ps|
      invariant ScrubPatterns(ps[..i], old(e.Now())) == Walked(e.Now(), changed, raised)
    {
      var p := ps[i];
      assert ps[..i + 1][..i] == ps[..i] && ps[..i + 1][i] == p;
      if !raised && p.field != "" {
        var w := WalkRaw(p.sub, e.Now());
        Overwrite(e, w.value);
        changed, raised := changed || w.changed, w.raised;
      }
    }
    assert ps[..|ps|] == ps;
  }

  /** `apply_mask`, in place; `raised` stands for the exception that would leave it. */
  method ApplyMask(e: Event, spec: MaskSpec) returns (changed: bool, raised: bool)
    modifies e
    ensures Mask(spec, old(e.Now())) == Walked(e.Now(), changed, raised)
  {
    var pairs := MaskColumns(e, spec);
    var keys := MaskKeys(e, spec);
    var byPattern, failed := ApplyPatterns(e, spec.patterns);
    changed, raised := pairs != [] || keys || byPattern, failed;
    if raised || !spec.scrub {
      return;
    }
    if pairs != [] {
      var swept := SweepColumns(e, spec, pairs);
      var w := WalkRaw(Scrubber(spec, pairs), e.Now());
      Overwrite(e, w.value);
      changed, raised := changed || swept || w.changed, w.raised;
    }
    if !raised {
      var again, failedAgain := SweepPatterns(e, spec.patterns);
      changed, raised := changed || again, failedAgain;
    }
  }

  /** `apply_route`, in place. */
  method ApplyRoute(e: Event, spec: RouteSpec) returns (changed: bool)
    modifies e
    ensures Route(spec, old(e.Now())) == Walked(e.Now(), changed, false)
  {
    changed := false;
    for i := 0 to |ROUTABLE_FIELDS|
      invariant RouteColumns(spec, ROUTABLE_FIELDS[..i], old(e.Now())) == Walked(e.Now(), changed, false)
    {
      var name := ROUTABLE_FIELDS[i];
      assert ROUTABLE_FIELDS[..i + 1][..i] == ROUTABLE_FIELDS[..i] && ROUTABLE_FIELDS[..i + 1][i] == name;
      if name in spec.wants && Column(e.Now(), name) != Text(spec.wants[name]) {
        e.columns := e.columns[name := Text(spec.wants[name])];
        changed := true;
      }
    }
    assert ROUTABLE_FIELDS[..|ROUTABLE_FIELDS|] == ROUTABLE_FIELDS;
    if spec.index.Some? && e.raw.Obj? && Find(e.raw.members, "_index") != Some(Str(spec.index.value)) {
      e.raw := Obj(Put(e.raw.members, "_index", Str(spec.index.value)));
      changed := true;
    }
  }

  // ------------------------------------------------------- the evaluator

  /** Keep the event when its bucket falls below the numerator. */
  datatype SampleSpec = SampleSpec(modulus: nat, numerator: int, key: seq<string>)

  datatype Act = Drop | Sample(sample: SampleSpec) | MaskBy(mask: MaskSpec) | RouteBy(route: RouteSpec)

  datatype Action = Action(id: string, enabled: bool, stamp: bool, rule: string, act: Act)

  datatype Decision = Decision(dropped: bool, ruleId: string, action: string, applied: seq<string>, errors: seq<string>)

  /** A flattened snapshot of an event. */
  type Flat = map<string, string>

  /** The detection engine and the sampling hash; nothing stands for an exception. */
  datatype Engine = Engine(
    flatten: Ev -> Option<Flat>, matches: (string, Flat, Ev) -> Option<bool>, bucket: (Ev, seq<string>) -> Option<nat>)

  function SampleKeeps(eng: Engine, spec: SampleSpec, ev: Ev): Option<bool> {
    match eng.bucket(ev, spec.key)
    case None => None
    case Some(b) => if spec.modulus == 0 then None else Some(b % spec.modulus < spec.numerator)
  }

  /** A mask or a route, whichever the rule names. */
  function Transform(act: Act, ev: Ev): Effect {
    match act
    case MaskBy(m) => Mask(m, ev)
    case RouteBy(r) => Route(r, ev)
    case _ => Walked(ev, false, false)
  }

  /** The evaluator that flattens the event afresh before every enabled rule. */
  function Eager(eng: Engine, actions: seq<Action>, ev: Ev, applied: seq<string>, errors: seq<string>): (Decision, Ev)
    decreases |actions|
  {
    if actions == [] then (Decision(false, "", "", applied, errors), ev)
    else
      var a, rest := actions[0], actions[1..];
      if !a.enabled then Eager(eng, rest, ev, applied, errors)
      else match eng.flatten(ev)
        case None => Eager(eng, rest, ev, applied, errors + [a.id])
        case Some(flat) => match eng.matches(a.rule, flat, ev)
          case None => Eager(eng, rest, ev, applied, errors + [a.id])
          case Some(hit) =>
            if !hit then Eager(eng, rest, ev, applied, errors)
            else EagerHit(eng, a, rest, ev, applied + [a.id], errors)
  }

  function EagerHit(
    eng: Engine, a: Action, rest: seq<Action>, ev: Ev, applied: seq<string>, errors: seq<string>): (Decision, Ev)
    decreases |rest| + 1, 0
  {
    match a.act
    case Drop => (Decision(true, a.id, "drop", applied, errors), ev)
    case Sample(spec) => (match SampleKeeps(eng, spec, ev)
      case None => Eager(eng, rest, ev, applied, errors + [a.id])
      case Some(kept) =>
        if kept then Eager(eng, rest, ev, applied, errors)
        else (Decision(true, a.id, "sample", applied, errors), ev))
    case _ =>
      var w := Transform(a.act, ev);
      if w.raised then Eager(eng, rest, w.value, applied, errors + [a.id])
      else Eager(eng, rest, if w.changed && a.stamp then Stamp(a.id, w.value) else w.value, applied, errors)
  }

  // ------------------------------------------------------- what a decision means

  /** The rule fires on the event: it is enabled, and the event, flattened as it is then, matches. */
  ghost predicate Fires(eng: Engine, a: Action, ev: Ev) {
    a.enabled && exists flat :: eng.flatten(ev) == Some(flat) && eng.matches(a.rule, flat, ev) == Some(true)
  }

  /** Flattening or matching raised. */
  ghost predicate CannotTell(eng: Engine, a: Action, ev: Ev) {
    a.enabled && forall flat :: eng.flatten(ev) == Some(flat) ==> eng.matches(a.rule, flat, ev) == None
  }

  /** The event's bucket lies outside the share to be kept. */
  ghost predicate SampledOut(eng: Engine, spec: SampleSpec, ev: Ev) {
    spec.modulus > 0 && exists b: nat :: eng.bucket(ev, spec.key) == Some(b) && b % spec.modulus >= spec.numerator
  }

  /** The rule ends the evaluation: the event is dropped. */
  ghost predicate Stops(eng: Engine, a: Action, ev: Ev) {
    Fires(eng, a, ev) && (a.act.Drop? || (a.act.Sample? && SampledOut(eng, a.act.sample, ev)))
  }

  /** What the rule's own work raised, once it fired. */
  ghost predicate Fails(eng: Engine, a: Action, ev: Ev) {
    match a.act
    case Drop => false
    case Sample(spec) => eng.bucket(ev, spec.key).None? || spec.modulus == 0
    case MaskBy(m) => Mask(m, ev).raised
    case RouteBy(r) => Route(r, ev).raised
  }

  /** The rule has had its turn, the evaluation goes on, and `next` is the event it leaves. */
  ghost predicate Leaves(eng: Engine, a: Action, ev: Ev, next: Ev) {
    !Stops(eng, a, ev) &&
    if !Fires(eng, a, ev) || a.act.Sample? then next == ev
    else
      var w := if a.act.MaskBy? then Mask(a.act.mask, ev) else if a.act.RouteBy? then Route(a.act.route, ev)
               else Walked(ev, false, false);
      next == if w.changed && !w.raised && a.stamp then Stamp(a.id, w.value) else w.value
  }

  /** The ids of the rules that fired, where `at[i]` is the event at the turn of rule `i`. */
  ghost function Fired(eng: Engine, actions: seq<Action>, at: seq<Ev>): seq<string>
    requires |at| <= |actions|
  {
    if at == [] then []
    else
      var n := |at| - 1;
      Fired(eng, actions, at[..n]) + (if Fires(eng, actions[n], at[n]) then [actions[n].id] else [])
  }

  /** The ids of the rules that could not be evaluated, or fired and raised. */
  ghost function Failed(eng: Engine, actions: seq<Action>, at: seq<Ev>): seq<string>
    requires |at| <= |actions|
  {
    if at == [] then []
    else
      var n := |at| - 1;
      Failed(eng, actions, at[..n])
      + (if CannotTell(eng, actions[n], at[n]) || (Fires(eng, actions[n], at[n]) && Fails(eng, actions[n], at[n]))
         then [actions[n].id] else [])
  }

  /** `at` are the events at the turns of the first rules, none of which stopped; the last is the current one. */
  ghost predicate Turns(eng: Engine, actions: seq<Action>, ev: Ev, at: seq<Ev>) {
    && 0 < |at| <= |actions| + 1 && at[0] == ev
    && forall i :: 0 <= i < |at| - 1 ==> Leaves(eng, actions[i], at[i], at[i + 1])
  }

  /**
   * What `decide` has to do: give every rule its turn, in order, on the event the rules before it have
   * left, up to the first that stops. The decision names that rule and what it did, or none; `applied`
   * lists the rules that fired, `errors` those that raised.
   */
  ghost predicate Decided(eng: Engine, actions: seq<Action>, ev: Ev, d: Decision, result: Ev) {
    exists at :: DecidedBy(eng, actions, ev, at, d, result)
  }

  ghost predicate DecidedBy(eng: Engine, actions: seq<Action>, ev: Ev, at: seq<Ev>, d: Decision, result: Ev) {
    && Turns(eng, actions, ev, at)
    && result == at[|at| - 1]
    && (d.dropped <==> |at| <= |actions| && Stops(eng, actions[|at| - 1], result))
    && if d.dropped then
         && d.ruleId == actions[|at| - 1].id
         && d.action == (if actions[|at| - 1].act.Drop? then "drop" else "sample")
         && d.applied == Fired(eng, actions, at) && d.errors == Failed(eng, actions, at)
       else
         && |at| == |actions| + 1 && d.ruleId == "" && d.action == ""
         && d.applied == Fired(eng, actions, at[..|actions|]) && d.errors == Failed(eng, actions, at[..|actions|])
  }

  /** What one turn adds to the list of rules that fired. */
  ghost function FiredAt(eng: Engine, a: Action, ev: Ev): seq<string> {
    if Fires(eng, a, ev) then [a.id] else []
  }

  ghost function FailedAt(eng: Engine, a: Action, ev: Ev): seq<string> {
    if CannotTell(eng, a, ev) || (Fires(eng, a, ev) && Fails(eng, a, ev)) then [a.id] else []
  }

  /** A rule that stops the evaluation decides it. */
  lemma EagerStops(eng: Engine, actions: seq<Action>, ev: Ev, applied: seq<string>, errors: seq<string>)
    requires actions != [] && Stops(eng, actions[0], ev)
    ensures Eager(eng, actions, ev, applied, errors)
         == (Decision(true, actions[0].id, if actions[0].act.Drop? then "drop" else "sample",
                      applied + FiredAt(eng, actions[0], ev), errors + FailedAt(eng, actions[0], ev)), ev)
  {
    assert errors + [] == errors;
  }

  /** A rule that does not stop hands over to the rest, with the event it leaves. */
  lemma EagerGoesOn(eng: Engine, actions: seq<Action>, ev: Ev, applied: seq<string>, errors: seq<string>)
    returns (next: Ev)
    requires actions != [] && !Stops(eng, actions[0], ev)
    ensures Leaves(eng, actions[0], ev, next)
    ensures Eager(eng, actions, ev, applied, errors)
         == Eager(eng, actions[1..], next,
                  applied + FiredAt(eng, actions[0], ev), errors + FailedAt(eng, actions[0], ev))
  {
    var a := actions[0];
    assert applied + [] == applied && errors + [] == errors;
    if !Fires(eng, a, ev) || a.act.Sample? {
      next := ev;
    } else {
      var w := Transform(a.act, ev);
      next := if w.changed && !w.raised && a.stamp then Stamp(a.id, w.value) else w.value;
    }
  }

  lemma TurnsOn(eng: Engine, actions: seq<Action>, ev: Ev, at: seq<Ev>, next: Ev)
    requires Turns(eng, actions, ev, at) && |at| <= |actions|
    requires Leaves(eng, actions[|at| - 1], at[|at| - 1], next)
    ensures var n, more := |at| - 1, at + [next];
            && Turns(eng, actions, ev, more) && more[..n + 1] == at
            && Fired(eng, actions, at) == Fired(eng, actions, at[..n]) + FiredAt(eng, actions[n], at[n])
            && Failed(eng, actions, at) == Failed(eng, actions, at[..n]) + FailedAt(eng, actions[n], at[n])
  {
    assert at[..|at|] == at;
  }

  lemma TurnStops(eng: Engine, actions: seq<Action>, ev: Ev, at: seq<Ev>)
    requires Turns(eng, actions, ev, at) && |at| <= |actions| && Stops(eng, actions[|at| - 1], at[|at| - 1])
    ensures var n, a := |at| - 1, actions[|at| - 1];
            Decided(eng, actions, ev,
                    Decision(true, a.id, if a.act.Drop? then "drop" else "sample",
                             Fired(eng, actions, at[..n]) + FiredAt(eng, a, at[n]),
                             Failed(eng, actions, at[..n]) + FailedAt(eng, a, at[n])), at[n])
  {
    var n, a := |at| - 1, actions[|at| - 1];
    var d := Decision(true, a.id, if a.act.Drop? then "drop" else "sample", Fired(eng, actions, at),
                      Failed(eng, actions, at));
    assert DecidedBy(eng, actions, ev, at, d, at[n]);
  }

  lemma TurnsEnd(eng: Engine, actions: seq<Action>, ev: Ev, at: seq<Ev>)
    requires Turns(eng, actions, ev, at) && |at| == |actions| + 1
    ensures var n := |actions|;
            Decided(eng, actions, ev,
                    Decision(false, "", "", Fired(eng, actions, at[..n]), Failed(eng, actions, at[..n])), at[n])
  {
    var n := |actions|;
    assert DecidedBy(eng, actions, ev, at,
                     Decision(false, "", "", Fired(eng, actions, at[..n]), Failed(eng, actions, at[..n])), at[n]);
  }

  /** The decision reached from the current turn on. */
  lemma {:induction false} EagerFrom(
    eng: Engine, actions: seq<Action>, ev: Ev, at: seq<Ev>, applied: seq<string>, errors: seq<string>)
    requires Turns(eng, actions, ev, at)
    requires applied == Fired(eng, actions, at[..|at| - 1]) && errors == Failed(eng, actions, at[..|at| - 1])
    ensures var (d, result) := Eager(eng, actions[|at| - 1..], at[|at| - 1], applied, errors);
            Decided(eng, actions, ev, d, result)
    decreases |actions| + 1 - |at|
  {
    var n, current := |at| - 1, at[|at| - 1];
    var rest := actions[n..];
    if n == |actions| {
      TurnsEnd(eng, actions, ev, at);
    } else if Stops(eng, actions[n], current) {
      EagerStops(eng, rest, current, applied, errors);
      TurnStops(eng, actions, ev, at);
    } else {
      var next := EagerGoesOn(eng, rest, current, applied, errors);
      TurnsOn(eng, actions, ev, at, next);
      assert rest[1..] == actions[n + 1..];
      EagerFrom(eng, actions, ev, at + [next], applied + FiredAt(eng, actions[n], current),
                errors + FailedAt(eng, actions[n], current));
    }
  }

  lemma EagerDecides(eng: Engine, actions: seq<Action>, ev: Ev)
    ensures var (d, result) := Eager(eng, actions, ev, [], []); Decided(eng, actions, ev, d, result)
  {
    assert actions[0..] == actions && [ev][..0] == [];
    EagerFrom(eng, actions, ev, [ev], [], []);
  }

  lemma {:induction false} TurnsAgree(eng: Engine, actions: seq<Action>, ev: Ev, at: seq<Ev>, at': seq<Ev>, i: nat)
    requires Turns(eng, actions, ev, at) && Turns(eng, actions, ev, at') && i < |at| && i < |at'|
    ensures at[i] == at'[i]
  {
    if i > 0 {
      TurnsAgree(eng, actions, ev, at, at', i - 1);
      assert Leaves(eng, actions[i - 1], at[i - 1], at[i]) && Leaves(eng, actions[i - 1], at'[i - 1], at'[i]);
    }
  }

  lemma PassedTurn(eng: Engine, actions: seq<Action>, ev: Ev, at: seq<Ev>, at': seq<Ev>, n: nat)
    requires Turns(eng, actions, ev, at) && Turns(eng, actions, ev, at') && n + 1 < |at| && n < |at'|
    ensures !Stops(eng, actions[n], at'[n])
  {
    TurnsAgree(eng, actions, ev, at, at', n);
    assert Leaves(eng, actions[n], at[n], at[n + 1]);
  }

  lemma TurnsEndTogether(
    eng: Engine, actions: seq<Action>, ev: Ev, at: seq<Ev>, at': seq<Ev>, d: Decision, d': Decision, e: Ev, e': Ev)
    requires DecidedBy(eng, actions, ev, at, d, e) && DecidedBy(eng, actions, ev, at', d', e')
    ensures |at| <= |at'|
  {
    if |at'| < |at| { PassedTurn(eng, actions, ev, at, at', |at'| - 1); }
  }

  /** The rules and the event decide: there is one decision and one resulting event. */
  lemma DecidedOnce(eng: Engine, actions: seq<Action>, ev: Ev, d: Decision, d': Decision, e: Ev, e': Ev)
    requires Decided(eng, actions, ev, d, e) && Decided(eng, actions, ev, d', e')
    ensures d == d' && e == e'
  {
    var at :| DecidedBy(eng, actions, ev, at, d, e);
    var at' :| DecidedBy(eng, actions, ev, at', d', e');
    TurnsEndTogether(eng, actions, ev, at, at', d, d', e, e');
    TurnsEndTogether(eng, actions, ev, at', at, d', d, e', e);
    forall i | 0 <= i < |at| ensures at[i] == at'[i] { TurnsAgree(eng, actions, ev, at, at', i); }
    assert at == at';
  }

  lemma {:induction false} QuietTurns(eng: Engine, actions: seq<Action>, ev: Ev, n: nat)
    requires n <= |actions|
    requires forall i :: 0 <= i < n ==> !Fires(eng, actions[i], ev) && !CannotTell(eng, actions[i], ev)
    ensures var at := seq(n, i => ev); Fired(eng, actions, at) == [] && Failed(eng, actions, at) == []
  {
    if n > 0 {
      QuietTurns(eng, actions, ev, n - 1);
      assert seq(n, i => ev)[..n - 1] == seq(n - 1, i => ev);
    }
  }

  /** Rules that are disabled or do not match pass the event on as it is. */
  lemma QuietFront(eng: Engine, actions: seq<Action>, ev: Ev, n: nat)
    requires n <= |actions|
    requires forall i :: 0 <= i < n ==> !Fires(eng, actions[i], ev) && !CannotTell(eng, actions[i], ev)
    ensures var at := seq(n + 1, i => ev);
            && Turns(eng, actions, ev, at)
            && Fired(eng, actions, at[..n]) == [] && Failed(eng, actions, at[..n]) == []
  {
    var at := seq(n + 1, i => ev);
    QuietTurns(eng, actions, ev, n);
    assert at[..n] == seq(n, i => ev);
    assert forall i :: 0 <= i < n ==> Leaves(eng, actions[i], at[i], at[i + 1]);
  }

  /** Rules that are disabled or do not match leave no trace; the first enabled rule that matches and drops decides. */
  lemma FirstDropDecides(eng: Engine, front: seq<Action>, a: Action, rest: seq<Action>, ev: Ev)
    requires forall r :: r in front ==> !Fires(eng, r, ev) && !CannotTell(eng, r, ev)
    requires a.act.Drop? && Fires(eng, a, ev)
    ensures Decided(eng, front + [a] + rest, ev, Decision(true, a.id, "drop", [a.id], []), ev)
  {
    var actions, n := front + [a] + rest, |front|;
    forall i | 0 <= i < n ensures !Fires(eng, actions[i], ev) && !CannotTell(eng, actions[i], ev) {
      assert actions[i] == front[i] && front[i] in front;
    }
    assert actions[n] == a;
    QuietFront(eng, actions, ev, n);
    TurnStops(eng, actions, ev, seq(n + 1, i => ev));
    assert [] + [a.id] == [a.id];
  }

  /** When no rule matches, the event is kept as it came. */
  lemma NoRuleNoChange(eng: Engine, actions: seq<Action>, ev: Ev)
    requires forall r :: r in actions ==> !Fires(eng, r, ev) && !CannotTell(eng, r, ev)
    ensures Decided(eng, actions, ev, Decision(false, "", "", [], []), ev)
  {
    QuietFront(eng, actions, ev, |actions|);
    TurnsEnd(eng, actions, ev, seq(|actions| + 1, i => ev));
  }

  /** The mask and route branch of the loop body. */
  method TransformInPlace(e: Event, act: Act) returns (changed: bool, raised: bool)
    requires act.MaskBy? || act.RouteBy?
    modifies e
    ensures Transform(act, old(e.Now())) == Walked(e.Now(), changed, raised)
  {
    if act.MaskBy? {
      changed, raised := ApplyMask(e, act.mask);
    } else {
      changed := ApplyRoute(e, act.route);
      raised := false;
    }
  }

  /**
   * `decide` with its lazily rebuilt snapshot gives the decision and the event of the evaluator
   * that flattens before every rule, for every rule list, including rules that raise.
   */
  method Decide(eng: Engine, actions: seq<Action>, e: Event) returns (d: Decision)
    modifies e
    ensures (d, e.Now()) == Eager(eng, actions, old(e.Now()), [], [])
    ensures Decided(eng, actions, old(e.Now()), d, e.Now())
  {
    var applied: seq<string>, errors: seq<string> := [], [];
    var flat: Option<Flat> := None;
    ghost var whole := Eager(eng, actions, e.Now(), [], []);
    EagerDecides(eng, actions, e.Now());
    assert actions[0..] == actions;
    for i := 0 to |actions|
      invariant flat.Some? ==> eng.flatten(e.Now()) == flat
      invariant Eager(eng, actions[i..], e.Now(), applied, errors) == whole
    {
      var a := actions[i];
      assert actions[i..][0] == a && actions[i..][1..] == actions[i + 1..];
      if a.enabled {
        if flat.None? {
          flat := eng.flatten(e.Now());
        }
        var hit := if flat.Some? then eng.matches(a.rule, flat.value, e.Now()) else None;
        if hit.None? {
          errors, flat := errors + [a.id], None;
        } else if hit.value {
          applied := applied + [a.id];
          if a.act.Drop? {
            return Decision(true, a.id, "drop", applied, errors);
          } else if a.act.Sample? {
            var kept := SampleKeeps(eng, a.act.sample, e.Now());
            if kept.None? {
              errors, flat := errors + [a.id], None;
            } else if !kept.value {
              return Decision(true, a.id, "sample", applied, errors);
            }
          } else {
            ghost var before := e.Now();
            TransformHonest(a.act, before);
            var changed, raised := TransformInPlace(e, a.act);
            if raised {
              errors, flat := errors + [a.id], None;
            } else if changed {
              if a.stamp {
                Overwrite(e, Stamp(a.id, e.Now()));
              }
              flat := None;
            }
          }
        }
      }
    }
    d := Decision(false, "", "", applied, errors);
  }

  lemma TransformHonest(act: Act, ev: Ev)
    ensures Honest(ev, Transform(act, ev))
  {
    match act
    case MaskBy(m) => MaskHonest(m, ev);
    case RouteBy(r) => RouteHonest(r, ev);
    case _ =>
  }
}
