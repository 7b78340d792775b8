/** app/cim/match.py: which data models an event belongs to, and the compiled plan that decides it. */
module CimSpec {
  import opened Prelude

  /** An event value, as `_text` tells them apart. */
  datatype Value =
    | Null
    | Text(s: string)
    | Bool(b: bool)
    | Number(rendered: string)
    | Object(fields: map<string, Value>)
    | Array(items: seq<Value>)
    | Bytes(decoded: string)
    | Other(rendering: Option<string>)

  /** One jsonb alternative: at least one segment, never split on a dot. */
  datatype Path = Path(key: string, deeper: seq<string>)

  datatype CimSource = Column(name: string) | Raw(paths: seq<Path>) | Const(text: string) | Expr(name: string)

  datatype Term = Term(source: CimSource, values: seq<string>)

  datatype Clause = Clause(terms: seq<Term>)

  datatype Field = Field(name: string, source: CimSource)

  datatype Model = Model(name: string, tag: string, version: int, clauses: seq<Clause>, fields: seq<Field>)

  /** A frozen registry object; the plan cache tells registries apart by identity. */
  class Registry {
    const version: int
    const models: seq<Model>

    constructor (version: int, models: seq<Model>)
      ensures this.version == version && this.models == models
    {
      this.version, this.models := version, models;
    }
  }

  /** A stored row or a parsed event: its columns, and `raw` when that is a mapping. */
  datatype Event = Event(columns: map<string, Value>, raw: Option<map<string, Value>>)

  const TERM_COLUMNS: set<string> := {
    "vendor", "product", "log_type", "severity", "action", "protocol", "app", "user_name", "host_name"}
}

module CimMatch {
  import opened Prelude
  import opened Sorting
  import opened CimSpec

  /** The comparison form of a value; `fold` is `strip().lower()`. */
  function TextOf(fold: string -> string, v: Value): Option<string> {
    match v
    case Null => None
    case Text(s) => Some(fold(s))
    case Bool(b) => Some(if b then "true" else "false")
    case Number(r) => Some(r)
    case Object(_) => None
    case Array(_) => None
    case Bytes(d) => Some(fold(d))
    case Other(r) => if r.Some? then Some(fold(r.value)) else None
  }

  function Get(m: map<string, Value>, k: string): Value {
    if k in m then m[k] else Null
  }

  /** Only the named columns, coerced once each. */
  function ColumnTexts(fold: string -> string, evt: Event, columns: set<string>): map<string, Option<string>> {
    map c | c in columns :: TextOf(fold, Get(evt.columns, c))
  }

  function Walk(v: Value, segs: seq<string>): Value
    decreases |segs|
  {
    if segs == [] then v
    else if v.Object? then Walk(Get(v.fields, segs[0]), segs[1..])
    else Null
  }

  /** The first alternative with a value, walking objects only. */
  function RawValue(raw: Option<map<string, Value>>, paths: seq<Path>): Value {
    if raw.None? || paths == [] then Null
    else
      var v := Walk(Get(raw.value, paths[0].key), paths[0].deeper);
      if v != Null then v else RawValue(raw, paths[1..])
  }

  /** A term reduced to what evaluation needs; the column is empty for a raw term. */
  datatype CTerm = CTerm(column: string, paths: seq<Path>, values: set<string>)

  function ValueSet(values: seq<string>): set<string> {
    set v | v in values
  }

  function CompileTerm(t: Term): Result<CTerm, string> {
    if t.values == [] then Err("term has no values")
    else match t.source
      case Raw(paths) => if paths == [] then Err("no jsonb path") else Ok(CTerm("", paths, ValueSet(t.values)))
      case Column(name) =>
        if name in TERM_COLUMNS then Ok(CTerm(name, [], ValueSet(t.values))) else Err("column not allowed")
      case Const(_) => Err("a term cannot read a const source")
      case Expr(_) => Err("a term cannot read an expr source")
  }

  /** The one place a term is decided. */
  predicate TermHit(
    fold: string -> string, t: CTerm, texts: map<string, Option<string>>, raw: Option<map<string, Value>>)
  {
    var text := if t.column != "" then (if t.column in texts then texts[t.column] else None)
                else TextOf(fold, RawValue(raw, t.paths));
    text.Some? && text.value in t.values
  }

  // ------------------------------------------------------- the reference walk

  predicate WellFormed(models: seq<Model>) {
    forall m :: m in models ==> forall c :: c in m.clauses ==> forall t :: t in c.terms ==> CompileTerm(t).Ok?
  }

  predicate TermMatches(fold: string -> string, t: Term, evt: Event) {
    match CompileTerm(t)
    case Ok(ct) => TermHit(fold, ct, ColumnTexts(fold, evt, TERM_COLUMNS), evt.raw)
    case Err(_) => false
  }

  /** A conjunction; an empty clause matches nothing. */
  predicate ClauseMatches(fold: string -> string, c: Clause, evt: Event) {
    c.terms != [] && forall t :: t in c.terms ==> TermMatches(fold, t, evt)
  }

  predicate ModelMatches(fold: string -> string, m: Model, evt: Event) {
    exists c :: c in m.clauses && ClauseMatches(fold, c, evt)
  }

  /** The tags of exactly the models the event belongs to, in registry order. */
  function MatchingTags(fold: string -> string, models: seq<Model>, evt: Event): seq<string> {
    if models == [] then []
    else (if ModelMatches(fold, models[0], evt) then [models[0].tag] else []) + MatchingTags(fold, models[1..], evt)
  }

  // ------------------------------------------------------- what a term asks of an event

  /** The value, as the database would render it, is among the wanted ones. Containers and null never are. */
  ghost predicate Reads(fold: string -> string, v: Value, wanted: seq<string>) {
    || (v.Text? && fold(v.s) in wanted)
    || (v.Bytes? && fold(v.decoded) in wanted)
    || (v.Number? && v.rendered in wanted)
    || (v.Bool? && v.b && "true" in wanted)
    || (v.Bool? && !v.b && "false" in wanted)
    || (v.Other? && exists r :: v.rendering == Some(r) && fold(r) in wanted)
  }

  /** `steps` is the way down from an object along `keys`, one object level for each key. */
  ghost predicate WayDown(steps: seq<Value>, keys: seq<string>) {
    && |steps| == |keys| + 1
    && forall i :: 0 <= i < |keys| ==>
         steps[i].Object? && keys[i] in steps[i].fields && steps[i + 1] == steps[i].fields[keys[i]]
  }

  /** The path leads to a value that is not null. */
  ghost predicate Leads(raw: map<string, Value>, p: Path, v: Value) {
    && v != Null
    && exists steps :: WayDown(steps, [p.key] + p.deeper) && steps[0] == Object(raw) && steps[|steps| - 1] == v
  }

  /** Path `i` leads to the value, and no path before it leads anywhere. */
  ghost predicate First(raw: map<string, Value>, paths: seq<Path>, i: nat, v: Value) {
    && i < |paths| && Leads(raw, paths[i], v)
    && forall j, w :: 0 <= j < i ==> !Leads(raw, paths[j], w)
  }

  /** The term, read off the event: the first path that leads anywhere decides a raw term. */
  ghost predicate Wants(fold: string -> string, t: Term, evt: Event) {
    match t.source
    case Column(name) => name in TERM_COLUMNS && name in evt.columns && Reads(fold, evt.columns[name], t.values)
    case Raw(paths) =>
      evt.raw.Some? && exists i, v :: First(evt.raw.value, paths, i, v) && Reads(fold, v, t.values)
    case Const(_) => false
    case Expr(_) => false
  }

  lemma {:induction false} WalkFollows(v: Value, keys: seq<string>) returns (steps: seq<Value>)
    requires Walk(v, keys) != Null
    ensures WayDown(steps, keys) && steps[0] == v && steps[|steps| - 1] == Walk(v, keys)
    decreases |keys|
  {
    if keys == [] {
      steps := [v];
    } else {
      if keys[0] !in v.fields { NullStays(keys[1..]); }
      var rest := WalkFollows(v.fields[keys[0]], keys[1..]);
      steps := [v] + rest;
    }
  }

  lemma NullStays(keys: seq<string>)
    ensures Walk(Null, keys) == Null
  {}

  lemma {:induction false} WalkIsTheWay(steps: seq<Value>, keys: seq<string>)
    requires WayDown(steps, keys)
    ensures Walk(steps[0], keys) == steps[|steps| - 1]
    decreases |keys|
  {
    if keys != [] {
      forall i | 0 <= i < |keys[1..]|
        ensures steps[1..][i].Object? && keys[1..][i] in steps[1..][i].fields
        ensures steps[1..][i + 1] == steps[1..][i].fields[keys[1..][i]]
      {
        assert steps[1..][i] == steps[i + 1] && keys[1..][i] == keys[i + 1];
      }
      WalkIsTheWay(steps[1..], keys[1..]);
    }
  }

  lemma LeadsWhereWalked(raw: map<string, Value>, p: Path, v: Value)
    ensures Leads(raw, p, v) <==> v != Null && Walk(Get(raw, p.key), p.deeper) == v
  {
    var keys := [p.key] + p.deeper;
    assert keys[1..] == p.deeper;
    assert Walk(Object(raw), keys) == Walk(Get(raw, p.key), p.deeper);
    if v != Null && Walk(Object(raw), keys) == v {
      var steps := WalkFollows(Object(raw), keys);
    }
    if Leads(raw, p, v) {
      var steps :| WayDown(steps, keys) && steps[0] == Object(raw) && steps[|steps| - 1] == v;
      WalkIsTheWay(steps, keys);
    }
  }

  lemma FirstShifts(raw: map<string, Value>, paths: seq<Path>, i: nat, v: Value)
    requires paths != [] && forall w :: !Leads(raw, paths[0], w)
    ensures First(raw, paths, i + 1, v) <==> First(raw, paths[1..], i, v)
  {
    if First(raw, paths[1..], i, v) {
      forall j, w | 0 <= j < i + 1 ensures !Leads(raw, paths[j], w) {
        if j > 0 { assert paths[j] == paths[1..][j - 1]; }
      }
    }
  }

  /** COALESCE: the value is the one at the first path that leads to any. */
  lemma {:induction false} FirstPathDecides(raw: map<string, Value>, paths: seq<Path>, i: nat, v: Value)
    requires First(raw, paths, i, v)
    ensures RawValue(Some(raw), paths) == v
  {
    if i == 0 {
      LeadsWhereWalked(raw, paths[0], v);
    } else {
      var here := Walk(Get(raw, paths[0].key), paths[0].deeper);
      LeadsWhereWalked(raw, paths[0], here);
      FirstShifts(raw, paths, i - 1, v);
      FirstPathDecides(raw, paths[1..], i - 1, v);
    }
  }

  lemma {:induction false} SomePathDecides(raw: map<string, Value>, paths: seq<Path>) returns (i: nat)
    requires RawValue(Some(raw), paths) != Null
    ensures First(raw, paths, i, RawValue(Some(raw), paths))
  {
    var here := Walk(Get(raw, paths[0].key), paths[0].deeper);
    LeadsWhereWalked(raw, paths[0], here);
    if here != Null {
      i := 0;
    } else {
      forall w ensures !Leads(raw, paths[0], w) { LeadsWhereWalked(raw, paths[0], w); }
      var k := SomePathDecides(raw, paths[1..]);
      FirstShifts(raw, paths, k, RawValue(Some(raw), paths));
      i := k + 1;
    }
  }

  lemma ReadsIsHit(fold: string -> string, v: Value, wanted: seq<string>)
    ensures Reads(fold, v, wanted) <==> TextOf(fold, v).Some? && TextOf(fold, v).value in ValueSet(wanted)
  {}

  /** A term matches exactly when it wants something and the event has it. */
  lemma TermMeans(fold: string -> string, t: Term, evt: Event)
    ensures TermMatches(fold, t, evt) <==> t.values != [] && Wants(fold, t, evt)
  {
    match t.source
    case Column(name) => ReadsIsHit(fold, Get(evt.columns, name), t.values);
    case Raw(paths) =>
      if evt.raw.Some? {
        var raw := evt.raw.value;
        var v := RawValue(evt.raw, paths);
        ReadsIsHit(fold, v, t.values);
        if v != Null { var i := SomePathDecides(raw, paths); }
        if i, w :| First(raw, paths, i, w) && Reads(fold, w, t.values) { FirstPathDecides(raw, paths, i, w); }
      }
    case _ =>
  }

  /** So a model is a disjunction of non-empty conjunctions of what its terms want. */
  lemma ModelMeans(fold: string -> string, m: Model, evt: Event)
    ensures ModelMatches(fold, m, evt) <==>
              exists c :: c in m.clauses && c.terms != []
                && forall t :: t in c.terms ==> t.values != [] && Wants(fold, t, evt)
  {
    forall c | c in m.clauses
      ensures ClauseMatches(fold, c, evt) <==>
                c.terms != [] && forall t :: t in c.terms ==> t.values != [] && Wants(fold, t, evt)
    {
      forall t | t in c.terms ensures TermMatches(fold, t, evt) <==> t.values != [] && Wants(fold, t, evt) {
        TermMeans(fold, t, evt);
      }
    }
  }

  /** A number in `raw` meets the text of the registry: how an integer event id is recognised. */
  lemma NumbersMeetText(fold: string -> string, m: Model, evt: Event, key: string, rendered: string, ids: seq<string>)
    requires evt.raw.Some? && key in evt.raw.value && evt.raw.value[key] == Number(rendered)
    requires rendered in ids && Clause([Term(Raw([Path(key, [])]), ids)]) in m.clauses
    ensures ModelMatches(fold, m, evt)
  {
    var raw, v, paths := evt.raw.value, Number(rendered), [Path(key, [])];
    var c := Clause([Term(Raw(paths), ids)]);
    LeadsWhereWalked(raw, paths[0], v);
    assert First(raw, paths, 0, v) && Reads(fold, v, ids);
    assert Wants(fold, c.terms[0], evt);
    ModelMeans(fold, m, evt);
  }

  /** A term the evaluator can read: it lists a value and reads an allowed column or some path of `raw`. */
  predicate Readable(t: Term) {
    && t.values != []
    && (match t.source
        case Column(name) => name in TERM_COLUMNS
        case Raw(paths) => paths != []
        case Const(_) => false
        case Expr(_) => false)
  }

  lemma WellFormedMeans(models: seq<Model>)
    ensures WellFormed(models) <==>
              forall m, c, t :: m in models && c in m.clauses && t in c.terms ==> Readable(t)
  {
    forall t ensures CompileTerm(t).Ok? <==> Readable(t) {}
  }

  // ------------------------------------------------------- the compiled plan

  datatype PlanModel = PlanModel(tag: string, clauses: seq<seq<CTerm>>)

  datatype Plan = Plan(models: seq<PlanModel>, columns: set<string>)

  function CompileTerms(ts: seq<Term>): Result<seq<CTerm>, string> {
    if ts == [] then Ok([])
    else match CompileTerm(ts[0])
      case Err(e) => Err(e)
      case Ok(t) => match CompileTerms(ts[1..])
        case Err(e) => Err(e)
        case Ok(rest) => Ok([t] + rest)
  }

  function CompileClauses(cs: seq<Clause>): Result<seq<seq<CTerm>>, string> {
    if cs == [] then Ok([])
    else match CompileTerms(cs[0].terms)
      case Err(e) => Err(e)
      case Ok(c) => match CompileClauses(cs[1..])
        case Err(e) => Err(e)
        case Ok(rest) => Ok([c] + rest)
  }

  function CompileModels(ms: seq<Model>): Result<seq<PlanModel>, string> {
    if ms == [] then Ok([])
    else match CompileClauses(ms[0].clauses)
      case Err(e) => Err(e)
      case Ok(cs) => match CompileModels(ms[1..])
        case Err(e) => Err(e)
        case Ok(rest) => Ok([PlanModel(ms[0].tag, cs)] + rest)
  }

  function Columns(ms: seq<PlanModel>): set<string> {
    set m, c, t | m in ms && c in m.clauses && t in c && t.column != "" :: t.column
  }

  function Compile(ms: seq<Model>): Result<Plan, string> {
    match CompileModels(ms)
    case Err(e) => Err(e)
    case Ok(pms) => Ok(Plan(pms, Columns(pms)))
  }

  lemma {:induction false} CompileTermsFacts(ts: seq<Term>)
    ensures CompileTerms(ts).Ok? <==> forall t :: t in ts ==> CompileTerm(t).Ok?
    ensures CompileTerms(ts).Ok? ==>
              && |CompileTerms(ts).value| == |ts|
              && forall i :: 0 <= i < |ts| ==> CompileTerm(ts[i]) == Ok(CompileTerms(ts).value[i])
  {
    if ts != [] {
      CompileTermsFacts(ts[1..]);
      assert ts == [ts[0]] + ts[1..];
    }
  }

  lemma {:induction false} CompileClausesFacts(cs: seq<Clause>)
    ensures CompileClauses(cs).Ok? <==> forall c :: c in cs ==> CompileTerms(c.terms).Ok?
    ensures CompileClauses(cs).Ok? ==>
              && |CompileClauses(cs).value| == |cs|
              && forall i :: 0 <= i < |cs| ==> CompileTerms(cs[i].terms) == Ok(CompileClauses(cs).value[i])
  {
    if cs != [] {
      CompileClausesFacts(cs[1..]);
      assert cs == [cs[0]] + cs[1..];
    }
  }

  lemma {:induction false} CompileModelsFacts(ms: seq<Model>)
    ensures CompileModels(ms).Ok? <==> forall m :: m in ms ==> CompileClauses(m.clauses).Ok?
    ensures CompileModels(ms).Ok? ==>
              && |CompileModels(ms).value| == |ms|
              && forall i :: 0 <= i < |ms| ==>
                   CompileModels(ms).value[i].tag == ms[i].tag
                   && CompileClauses(ms[i].clauses) == Ok(CompileModels(ms).value[i].clauses)
  {
    if ms != [] {
      CompileModelsFacts(ms[1..]);
      assert ms == [ms[0]] + ms[1..];
    }
  }

  /** Compiling fails exactly on a registry with a malformed term somewhere. */
  lemma CompileFailsOnMalformed(ms: seq<Model>)
    ensures Compile(ms).Ok? <==> WellFormed(ms)
  {
    CompileModelsFacts(ms);
    forall m | m in ms
      ensures CompileClauses(m.clauses).Ok?
            <==> forall c :: c in m.clauses ==> forall t :: t in c.terms ==> CompileTerm(t).Ok?
    {
      CompileClausesFacts(m.clauses);
      forall c | c in m.clauses
        ensures CompileTerms(c.terms).Ok? <==> forall t :: t in c.terms ==> CompileTerm(t).Ok?
      {
        CompileTermsFacts(c.terms);
      }
    }
  }

  // ------------------------------------------------------- evaluating the plan

  predicate CClauseHit(
    fold: string -> string, c: seq<CTerm>, texts: map<string, Option<string>>, raw: Option<map<string, Value>>)
  {
    c != [] && forall t :: t in c ==> TermHit(fold, t, texts, raw)
  }

  predicate CModelHit(
    fold: string -> string, m: PlanModel, texts: map<string, Option<string>>, raw: Option<map<string, Value>>)
  {
    exists c :: c in m.clauses && CClauseHit(fold, c, texts, raw)
  }

  /** Coercing only the columns some term reads changes no term. */
  lemma NarrowingIsHarmless(fold: string -> string, evt: Event, t: Term, ct: CTerm, columns: set<string>)
    requires CompileTerm(t) == Ok(ct) && (ct.column != "" ==> ct.column in columns)
    ensures TermHit(fold, ct, ColumnTexts(fold, evt, columns), evt.raw) == TermMatches(fold, t, evt)
  {}

  lemma ClauseAgrees(fold: string -> string, evt: Event, c: Clause, cc: seq<CTerm>, columns: set<string>)
    requires CompileTerms(c.terms) == Ok(cc)
    requires forall t :: t in cc && t.column != "" ==> t.column in columns
    ensures CClauseHit(fold, cc, ColumnTexts(fold, evt, columns), evt.raw) == ClauseMatches(fold, c, evt)
  {
    CompileTermsFacts(c.terms);
    var texts := ColumnTexts(fold, evt, columns);
    forall i | 0 <= i < |cc| ensures TermHit(fold, cc[i], texts, evt.raw) == TermMatches(fold, c.terms[i], evt) {
      assert cc[i] in cc;
      NarrowingIsHarmless(fold, evt, c.terms[i], cc[i], columns);
    }
    if CClauseHit(fold, cc, texts, evt.raw) {
      forall t | t in c.terms ensures TermMatches(fold, t, evt) {
        var i :| 0 <= i < |c.terms| && c.terms[i] == t;
        assert cc[i] in cc;
      }
    }
    if ClauseMatches(fold, c, evt) {
      forall t | t in cc ensures TermHit(fold, t, texts, evt.raw) {
        var i :| 0 <= i < |cc| && cc[i] == t;
        assert c.terms[i] in c.terms;
      }
    }
  }

  lemma ModelAgrees(fold: string -> string, evt: Event, m: Model, pm: PlanModel, columns: set<string>)
    requires CompileClauses(m.clauses) == Ok(pm.clauses)
    requires forall c, t :: c in pm.clauses && t in c && t.column != "" ==> t.column in columns
    ensures CModelHit(fold, pm, ColumnTexts(fold, evt, columns), evt.raw) == ModelMatches(fold, m, evt)
  {
    CompileClausesFacts(m.clauses);
    var texts := ColumnTexts(fold, evt, columns);
    forall i | 0 <= i < |m.clauses|
      ensures CClauseHit(fold, pm.clauses[i], texts, evt.raw) == ClauseMatches(fold, m.clauses[i], evt)
    {
      assert pm.clauses[i] in pm.clauses;
      ClauseAgrees(fold, evt, m.clauses[i], pm.clauses[i], columns);
    }
    if c :| c in pm.clauses && CClauseHit(fold, c, texts, evt.raw) {
      var i :| 0 <= i < |pm.clauses| && pm.clauses[i] == c;
      assert m.clauses[i] in m.clauses;
    }
    if c :| c in m.clauses && ClauseMatches(fold, c, evt) {
      var i :| 0 <= i < |m.clauses| && m.clauses[i] == c;
      assert pm.clauses[i] in pm.clauses;
    }
  }

  // ------------------------------------------------------- the plan cache

  const PLAN_CACHE_MAX: nat := 8

  /** One dictionary item, in insertion order: `id(reg)` at the time, the registry, its plan. */
  datatype Entry = Entry(key: int, reg: Registry, plan: Plan)

  class PlanCache {
    var entries: seq<Entry>

    ghost predicate Valid()
      reads this
    {
      && |entries| <= PLAN_CACHE_MAX
      && (forall i, j :: 0 <= i < j < |entries| ==> entries[i].key != entries[j].key)
      && forall i :: 0 <= i < |entries| ==> Compile(entries[i].reg.models) == Ok(entries[i].plan)
    }

    constructor ()
      ensures Valid() && entries == []
    {
      entries := [];
    }

    /**
     * `_plan`: whatever the cache has been through, and whatever number `id(reg)` happens to be,
     * the answer is what compiling this registry gives.
     */
    method PlanFor(key: int, reg: Registry) returns (r: Result<Plan, string>)
      requires Valid()
      modifies this
      ensures Valid()
      ensures r == Compile(reg.models)
      ensures r.Err? ==> entries == old(entries)
    {
      var at := 0;
      while at < |entries| && entries[at].key != key
        invariant at <= |entries|
        invariant forall i :: 0 <= i < at ==> entries[i].key != key
      {
        at := at + 1;
      }
      if at < |entries| && entries[at].reg == reg {
        return Ok(entries[at].plan);
      }
      r := Compile(reg.models);
      if r.Err? {
        return;
      }
      if |entries| >= PLAN_CACHE_MAX {
        entries := entries[1..];
        at := if at == 0 then |entries| else at - 1;
      }
      var entry := Entry(key, reg, r.value);
      if at < |entries| {
        entries := entries[at := entry];
      } else {
        entries := entries + [entry];
      }
    }

    method Clear()
      modifies this
      ensures Valid() && entries == []
    {
      entries := [];
    }
  }

  // ------------------------------------------------------- tags_for

  /** The inner for/else: no failing term in a non-empty clause. */
  method ClauseHits(
    fold: string -> string, terms: seq<CTerm>, texts: map<string, Option<string>>, raw: Option<map<string, Value>>)
    returns (hit: bool)
    ensures hit == CClauseHit(fold, terms, texts, raw)
  {
    if terms == [] {
      return false;
    }
    for i := 0 to |terms|
      invariant forall k :: 0 <= k < i ==> TermHit(fold, terms[k], texts, raw)
    {
      if !TermHit(fold, terms[i], texts, raw) {
        assert terms[i] in terms;
        return false;
      }
    }
    return true;
  }

  /** The middle loop: one clause is enough. */
  method ModelHits(
    fold: string -> string, m: PlanModel, texts: map<string, Option<string>>, raw: Option<map<string, Value>>)
    returns (hit: bool)
    ensures hit == CModelHit(fold, m, texts, raw)
  {
    for k := 0 to |m.clauses|
      invariant forall j :: 0 <= j < k ==> !CClauseHit(fold, m.clauses[j], texts, raw)
    {
      var h := ClauseHits(fold, m.clauses[k], texts, raw);
      if h {
        assert m.clauses[k] in m.clauses;
        return true;
      }
    }
    return false;
  }

  /** The tags of the plan's models that hit, in plan order. */
  method HitTags(
    fold: string -> string, plan: Plan, texts: map<string, Option<string>>, raw: Option<map<string, Value>>)
    returns (tags: seq<string>)
    ensures tags == PlanTags(fold, plan.models, texts, raw)
  {
    tags := [];
    for i := 0 to |plan.models|
      invariant tags == PlanTags(fold, plan.models[..i], texts, raw)
    {
      var m := plan.models[i];
      assert plan.models[..i + 1][..i] == plan.models[..i] && plan.models[..i + 1][i] == m;
      var hit := ModelHits(fold, m, texts, raw);
      if hit {
        tags := tags + [m.tag];
      }
    }
    assert plan.models[..|plan.models|] == plan.models;
  }

  function PlanTags(
    fold: string -> string, ms: seq<PlanModel>, texts: map<string, Option<string>>,
    raw: Option<map<string, Value>>): seq<string>
  {
    if ms == [] then []
    else
      var m := ms[|ms| - 1];
      PlanTags(fold, ms[..|ms| - 1], texts, raw) + (if CModelHit(fold, m, texts, raw) then [m.tag] else [])
  }

  lemma {:induction false} MatchingTagsSnoc(fold: string -> string, ms: seq<Model>, evt: Event)
    requires ms != []
    ensures var m := ms[|ms| - 1];
            MatchingTags(fold, ms, evt)
              == MatchingTags(fold, ms[..|ms| - 1], evt) + (if ModelMatches(fold, m, evt) then [m.tag] else [])
    decreases |ms|
  {
    if |ms| > 1 {
      MatchingTagsSnoc(fold, ms[1..], evt);
      assert ms[1..][|ms| - 2] == ms[|ms| - 1];
      assert ms[1..][..|ms| - 2] == ms[..|ms| - 1][1..];
    }
  }

  /** The compiled plan answers with the reference walk's tags. */
  lemma {:induction false} PlanMeansReference(
    fold: string -> string, ms: seq<Model>, pms: seq<PlanModel>, evt: Event, columns: set<string>)
    requires |ms| == |pms|
    requires forall i :: 0 <= i < |ms|
               ==> pms[i].tag == ms[i].tag && CompileClauses(ms[i].clauses) == Ok(pms[i].clauses)
    requires forall m, c, t :: m in pms && c in m.clauses && t in c && t.column != "" ==> t.column in columns
    ensures PlanTags(fold, pms, ColumnTexts(fold, evt, columns), evt.raw) == MatchingTags(fold, ms, evt)
    decreases |ms|
  {
    if ms != [] {
      var k := |ms| - 1;
      assert pms[k] in pms;
      forall m | m in pms[..k] ensures m in pms {}
      PlanMeansReference(fold, ms[..k], pms[..k], evt, columns);
      ModelAgrees(fold, evt, ms[k], pms[k], columns);
      MatchingTagsSnoc(fold, ms, evt);
    }
  }

  /** `tags_for`: the sorted tags of exactly the models the reference walk accepts. */
  method TagsFor(cache: PlanCache, key: int, reg: Registry, fold: string -> string, evt: Event)
    returns (r: Result<seq<string>, string>)
    requires cache.Valid()
    modifies cache
    ensures cache.Valid()
    ensures r.Ok? <==> WellFormed(reg.models)
    ensures r.Ok? ==> r.value == SortBy(TextLe, MatchingTags(fold, reg.models, evt))
  {
    CompileFailsOnMalformed(reg.models);
    var plan := cache.PlanFor(key, reg);
    match plan {
      case Err(e) => return Err(e);
      case Ok(p) =>
        var texts := ColumnTexts(fold, evt, p.columns);
        var tags := HitTags(fold, p, texts, evt.raw);
        CompileModelsFacts(reg.models);
        PlanMeansReference(fold, reg.models, p.models, evt, p.columns);
        return Ok(SortBy(TextLe, tags));
    }
  }

  // ------------------------------------------------------- what the result means

  lemma {:induction false} MatchingTagsFacts(fold: string -> string, ms: seq<Model>, evt: Event)
    ensures forall tag :: tag in MatchingTags(fold, ms, evt) <==>
              exists m :: m in ms && m.tag == tag && ModelMatches(fold, m, evt)
  {
    if ms != [] {
      MatchingTagsFacts(fold, ms[1..], evt);
      assert ms == [ms[0]] + ms[1..];
    }
  }

  ghost predicate DistinctTags(ms: seq<Model>) {
    forall i, j :: 0 <= i < j < |ms| ==> ms[i].tag != ms[j].tag
  }

  lemma {:induction false} MatchingTagsDistinct(fold: string -> string, ms: seq<Model>, evt: Event)
    requires DistinctTags(ms)
    ensures NoDuplicates(MatchingTags(fold, ms, evt))
  {
    if ms != [] {
      MatchingTagsDistinct(fold, ms[1..], evt);
      MatchingTagsFacts(fold, ms[1..], evt);
      var rest := MatchingTags(fold, ms[1..], evt);
      forall k | 0 <= k < |rest| ensures rest[k] != ms[0].tag {
        assert rest[k] in rest;
        var m :| m in ms[1..] && m.tag == rest[k] && ModelMatches(fold, m, evt);
        var j :| 0 <= j < |ms[1..]| && ms[1..][j] == m;
        assert ms[j + 1] == m;
      }
    }
  }

  /**
   * With distinct tags the stored value is the strictly ordered list of exactly the matching
   * models' tags, so any other ordered list of that set is the same list.
   */
  lemma TagsForIsTheSortedSet(fold: string -> string, ms: seq<Model>, evt: Event, tags: seq<string>)
    requires DistinctTags(ms)
    requires Sorted(TextLe, tags) && NoDuplicates(tags)
    requires forall tag :: tag in tags <==> exists m :: m in ms && m.tag == tag && ModelMatches(fold, m, evt)
    ensures SortBy(TextLe, MatchingTags(fold, ms, evt)) == tags
  {
    var found := MatchingTags(fold, ms, evt);
    MatchingTagsFacts(fold, ms, evt);
    MatchingTagsDistinct(fold, ms, evt);
    TextLePreorder();
    SortByCorrect(TextLe, found);
    NoDuplicatesPermutes(found, SortBy(TextLe, found));
    SortedUnique(SortBy(TextLe, found), tags);
  }

  /**
   * `cim_models_for(evt, tags=frozenset(tags_for(evt)))` re-sorts the threaded set. It stores what
   * deriving the tags afresh would store exactly when no tag was found twice.
   */
  lemma ThreadedTagsAgree(derived: seq<string>, threaded: seq<string>)
    requires Sorted(TextLe, derived)
    requires NoDuplicates(threaded) && forall tag :: tag in threaded <==> tag in derived
    ensures SortBy(TextLe, threaded) == derived <==> NoDuplicates(derived)
  {
    TextLePreorder();
    SortByCorrect(TextLe, threaded);
    NoDuplicatesPermutes(threaded, SortBy(TextLe, threaded));
    if NoDuplicates(derived) { SortedUnique(SortBy(TextLe, threaded), derived); }
  }

  /** With distinct tags, as the registry loader demands, threading always stores what deriving would. */
  lemma DistinctTagsThread(fold: string -> string, ms: seq<Model>, evt: Event, threaded: seq<string>)
    requires DistinctTags(ms) && NoDuplicates(threaded)
    requires forall tag :: tag in threaded <==> tag in MatchingTags(fold, ms, evt)
    ensures SortBy(TextLe, threaded) == SortBy(TextLe, MatchingTags(fold, ms, evt))
  {
    var found := MatchingTags(fold, ms, evt);
    var derived := SortBy(TextLe, found);
    MatchingTagsDistinct(fold, ms, evt);
    TextLePreorder();
    SortByCorrect(TextLe, found);
    NoDuplicatesPermutes(found, derived);
    forall tag ensures tag in derived <==> tag in found {
      assert tag in derived <==> tag in multiset(derived);
    }
    ThreadedTagsAgree(derived, threaded);
  }
}
