/** app/db.py: the columns two subsystems share, and why their backfills converge. */
module DerivedContext {
  import opened Prelude
  import opened Sorting
  import opened Backfills

  /** What the asset registry knows about one event. */
  datatype Resolution = Resolution(cols: AssetCols, labels: seq<string>)

  /** What the geo layer knows about one event. */
  datatype GeoResult = GeoResult(cols: GeoCols, labels: seq<string>)

  const NO_ASSET := AssetCols(None, None, None, None)
  const NO_GEO := GeoCols(None, None, None, None)

  /** Python truth of an optional text. */
  predicate Truthy(s: Option<string>) {
    s.Some? && s.value != ""
  }

  predicate EmptyResolution(r: Resolution) {
    !Truthy(r.cols.assetId) && !Truthy(r.cols.identityId) && r.labels == []
  }

  predicate EmptyGeo(g: GeoResult) {
    && !Truthy(g.cols.srcCountry) && !Truthy(g.cols.dstCountry)
    && g.cols.srcAsn.None? && g.cols.dstAsn.None? && g.labels == []
  }

  /** The registry, geo and membership resolvers, pinned for a run. Each may raise on an event. */
  datatype Resolvers = Resolvers(
    asset: Source -> Option<Resolution>, geo: Source -> Option<GeoResult>,
    cim: Source -> Option<Option<seq<string>>>, fold: string -> string)

  function AssetContext(r: Option<Resolution>): (AssetCols, seq<string>) {
    if r.None? || EmptyResolution(r.value) then (NO_ASSET, []) else (r.value.cols, r.value.labels)
  }

  /** `_cim_tags`: NULL when membership cannot be evaluated. */
  function Membership(m: Option<Option<seq<string>>>): Option<seq<string>> {
    if m.None? then None else m.value
  }

  function GeoContext(g: Option<GeoResult>): (GeoCols, seq<string>) {
    if g.None? || EmptyGeo(g.value) then (NO_GEO, []) else (g.value.cols, g.value.labels)
  }

  // ------------------------------------------------------- the canonical label array

  /** The labels as a set: stripped and lower-cased by `fold`, blanks dropped. */
  function LabelSet(fold: string -> string, labels: seq<string>): set<string> {
    set l | l in labels && fold(l) != "" :: fold(l)
  }

  function Distinct(s: seq<string>): seq<string> {
    if s == [] then []
    else if s[0] in s[1..] then Distinct(s[1..]) else [s[0]] + Distinct(s[1..])
  }

  /** `canonical_tags`: sorted, de-duplicated, lower-cased, blank-free. */
  function CanonicalTags(fold: string -> string, labels: seq<string>): seq<string> {
    SortBy(TextLe, Distinct(Filter(l => l != "", Map(fold, labels))))
  }

  lemma {:induction false} DistinctFacts(s: seq<string>)
    ensures NoDuplicates(Distinct(s))
    ensures forall x :: x in Distinct(s) <==> x in s
  {
    if s != [] {
      DistinctFacts(s[1..]);
      assert s == [s[0]] + s[1..];
    }
  }

  lemma CanonicalTagsFacts(fold: string -> string, labels: seq<string>)
    ensures NoDuplicates(CanonicalTags(fold, labels)) && Sorted(TextLe, CanonicalTags(fold, labels))
    ensures forall x :: x in CanonicalTags(fold, labels) <==> x in LabelSet(fold, labels)
  {
    var m := Map(fold, labels);
    var f := Filter(l => l != "", m);
    FilterIn(l => l != "", m);
    DistinctFacts(f);
    TextLePreorder();
    SortByCorrect(TextLe, Distinct(f));
    NoDuplicatesPermutes(Distinct(f), CanonicalTags(fold, labels));
    forall x ensures x in f <==> x in LabelSet(fold, labels) {
      if x in LabelSet(fold, labels) {
        var l :| l in labels && fold(l) != "" && fold(l) == x;
        var i :| 0 <= i < |labels| && labels[i] == l;
        assert m[i] == x;
      }
    }
  }

  /** The array depends on the set of labels only, not on their order, case or repetition. */
  lemma CanonicalTagsBySet(fold: string -> string, a: seq<string>, b: seq<string>)
    requires LabelSet(fold, a) == LabelSet(fold, b)
    ensures CanonicalTags(fold, a) == CanonicalTags(fold, b)
  {
    CanonicalTagsFacts(fold, a);
    CanonicalTagsFacts(fold, b);
    SortedUnique(CanonicalTags(fold, a), CanonicalTags(fold, b));
  }

  // ------------------------------------------------------- one derivation, three writers

  /** `list(merged) or None`. */
  function OrNull(tags: seq<string>): Option<seq<string>> {
    if tags == [] then None else Some(tags)
  }

  /** `_derived_context`: every context column of a row, the labels of both producers merged. */
  function Context(rs: Resolvers, s: Source): (AssetCols, GeoCols, Option<seq<string>>) {
    var (assetCols, assetLabels) := AssetContext(rs.asset(s));
    var (geoCols, geoLabels) := GeoContext(rs.geo(s));
    (assetCols, geoCols, OrNull(CanonicalTags(rs.fold, assetLabels + geoLabels)))
  }

  /** `_row`: what ingest stores. */
  function Ingested(rs: Resolvers, s: Source): Derived {
    var (a, g, t) := Context(rs, s);
    Derived(Membership(rs.cim(s)), a, g, t)
  }

  function CimJob(rs: Resolvers, since: Option<int>, until: Option<int>): Job {
    Job(since, until, (s: Source) => rs.cim(s).None?,
        (s: Source, d: Derived) => d.(cimModels := Membership(rs.cim(s))))
  }

  /** `backfill_assets` resolves the registry context itself, so what that raises ends the run. */
  function AssetJob(rs: Resolvers, since: Option<int>, until: Option<int>): Job {
    Job(since, until, (s: Source) => rs.asset(s).None?,
        (s: Source, d: Derived) => d.(asset := Context(rs, s).0, contextTags := Context(rs, s).2))
  }

  function GeoJob(rs: Resolvers, since: Option<int>, until: Option<int>): Job {
    Job(since, until, (s: Source) => rs.asset(s).None?,
        (s: Source, d: Derived) => d.(geo := Context(rs, s).1, contextTags := Context(rs, s).2))
  }

  lemma JobsSettle(rs: Resolvers, since: Option<int>, until: Option<int>)
    ensures Settles(CimJob(rs, since, until))
    ensures Settles(AssetJob(rs, since, until))
    ensures Settles(GeoJob(rs, since, until))
  {}

  /** A label one of the two producers gives the event, in its stored form. */
  ghost predicate Labelled(rs: Resolvers, s: Source, text: string) {
    && text != ""
    && ((exists tag :: rs.asset(s).Some? && tag in rs.asset(s).value.labels && rs.fold(tag) == text)
        || (exists tag :: rs.geo(s).Some? && tag in rs.geo(s).value.labels && rs.fold(tag) == text))
  }

  /** The column holds exactly the given labels, once each and sorted; NULL stands for none. */
  ghost predicate HoldsLabels(column: Option<seq<string>>, rs: Resolvers, s: Source) {
    match column
    case None => forall text :: !Labelled(rs, s, text)
    case Some(tags) =>
      && tags != [] && Sorted(TextLe, tags) && NoDuplicates(tags)
      && forall text :: text in tags <==> Labelled(rs, s, text)
  }

  lemma LabelsAre(rs: Resolvers, s: Source, text: string)
    ensures text in LabelSet(rs.fold, AssetContext(rs.asset(s)).1 + GeoContext(rs.geo(s)).1)
       <==> Labelled(rs, s, text)
  {
    var a, g := AssetContext(rs.asset(s)).1, GeoContext(rs.geo(s)).1;
    assert a == if rs.asset(s).Some? then rs.asset(s).value.labels else [];
    assert g == if rs.geo(s).Some? then rs.geo(s).value.labels else [];
    if text in LabelSet(rs.fold, a + g) {
      var tag :| tag in a + g && rs.fold(tag) != "" && rs.fold(tag) == text;
      assert tag in a || tag in g;
    }
    if Labelled(rs, s, text) {
      if tag :| tag in a && rs.fold(tag) == text { assert tag in a + g; }
      if tag :| tag in g && rs.fold(tag) == text { assert tag in a + g; }
    }
  }

  /** Whichever of the three writers wrote it, the column holds every label of both producers and no other. */
  lemma NoLabelLost(rs: Resolvers, s: Source, d: Derived, since: Option<int>, until: Option<int>)
    ensures HoldsLabels(Ingested(rs, s).contextTags, rs, s)
    ensures HoldsLabels(AssetJob(rs, since, until).target(s, d).contextTags, rs, s)
    ensures HoldsLabels(GeoJob(rs, since, until).target(s, d).contextTags, rs, s)
  {
    var labels := AssetContext(rs.asset(s)).1 + GeoContext(rs.geo(s)).1;
    CanonicalTagsFacts(rs.fold, labels);
    forall text ensures text in LabelSet(rs.fold, labels) <==> Labelled(rs, s, text) {
      LabelsAre(rs, s, text);
    }
    assert Context(rs, s).2 == OrNull(CanonicalTags(rs.fold, labels));
  }

  /** The registry knows the event: an asset, an identity or a label. */
  predicate Known(a: Resolution) {
    || (a.cols.assetId.Some? && a.cols.assetId != Some(""))
    || (a.cols.identityId.Some? && a.cols.identityId != Some(""))
    || a.labels != []
  }

  /** The geo layer places the event: a country, an ASN or a label. */
  predicate Placed(g: GeoResult) {
    || (g.cols.srcCountry.Some? && g.cols.srcCountry != Some(""))
    || (g.cols.dstCountry.Some? && g.cols.dstCountry != Some(""))
    || g.cols.srcAsn.Some? || g.cols.dstAsn.Some? || g.labels != []
  }

  /** The other columns are what the resolvers say, whole, or all NULL when they say nothing or fail. */
  lemma ColumnsAreResolved(rs: Resolvers, s: Source)
    ensures forall a :: rs.asset(s) == Some(a) && Known(a) ==> Ingested(rs, s).asset == a.cols
    ensures (forall a :: rs.asset(s) == Some(a) ==> !Known(a)) ==>
              Ingested(rs, s).asset == AssetCols(None, None, None, None)
    ensures forall g :: rs.geo(s) == Some(g) && Placed(g) ==> Ingested(rs, s).geo == g.cols
    ensures (forall g :: rs.geo(s) == Some(g) ==> !Placed(g)) ==>
              Ingested(rs, s).geo == GeoCols(None, None, None, None)
    ensures forall m :: rs.cim(s) == Some(m) ==> Ingested(rs, s).cimModels == m
    ensures rs.cim(s).None? ==> Ingested(rs, s).cimModels == None
  {
    if rs.geo(s).Some? { assert rs.geo(s) == Some(rs.geo(s).value); }
    if rs.asset(s).Some? { assert rs.asset(s) == Some(rs.asset(s).value); }
  }

  /** Each run writes its own columns and the shared one as ingest would, and no others. */
  lemma JobsWriteTheirOwn(rs: Resolvers, s: Source, d: Derived, since: Option<int>, until: Option<int>)
    ensures CimJob(rs, since, until).target(s, d)
         == Derived(Ingested(rs, s).cimModels, d.asset, d.geo, d.contextTags)
    ensures AssetJob(rs, since, until).target(s, d)
         == Derived(d.cimModels, Ingested(rs, s).asset, d.geo, Ingested(rs, s).contextTags)
    ensures GeoJob(rs, since, until).target(s, d)
         == Derived(d.cimModels, d.asset, Ingested(rs, s).geo, Ingested(rs, s).contextTags)
  {}

  /** The order the two producers' labels are listed in does not reach the column. */
  lemma ProducersSymmetric(rs: Resolvers, s: Source)
    ensures Context(rs, s).2
         == OrNull(CanonicalTags(rs.fold, GeoContext(rs.geo(s)).1 + AssetContext(rs.asset(s)).1))
  {
    var a, g := AssetContext(rs.asset(s)).1, GeoContext(rs.geo(s)).1;
    assert LabelSet(rs.fold, a + g) == LabelSet(rs.fold, g + a);
    CanonicalTagsBySet(rs.fold, a + g, g + a);
  }

  // ------------------------------------------------------- convergence

  function RunAssets(rs: Resolvers, start: int, rows: seq<Row>): seq<Row> {
    Rederived(AssetJob(rs, None, None), start, None, rows)
  }

  function RunGeo(rs: Resolvers, start: int, rows: seq<Row>): seq<Row> {
    Rederived(GeoJob(rs, None, None), start, None, rows)
  }

  /** Which of the three runs a committed page belongs to. */
  datatype Kind = CimRun | AssetRun | GeoRun

  /**
   * One committed page of some run: the ids in `(lo, hi]`, or above `lo` for a whole run, whose time is
   * in the run's window.
   */
  datatype Commit = Commit(kind: Kind, lo: int, hi: Option<int>, since: Option<int>, until: Option<int>)

  function JobOf(rs: Resolvers, c: Commit): Job {
    match c.kind
    case CimRun => CimJob(rs, c.since, c.until)
    case AssetRun => AssetJob(rs, c.since, c.until)
    case GeoRun => GeoJob(rs, c.since, c.until)
  }

  /** The page holds the row. */
  predicate InPage(c: Commit, r: Row) {
    && c.lo < r.id && (c.hi.Some? ==> r.id <= c.hi.value)
    && (c.since.Some? ==> c.since.value <= r.time) && (c.until.Some? ==> r.time < c.until.value)
  }

  /** The table after a history of commits, the last one applied last. */
  function AfterCommits(rs: Resolvers, cs: seq<Commit>, rows: seq<Row>): (t: seq<Row>)
    ensures |t| == |rows|
  {
    if cs == [] then rows
    else
      var c := cs[|cs| - 1];
      Rederived(JobOf(rs, c), c.lo, c.hi, AfterCommits(rs, cs[..|cs| - 1], rows))
  }

  /** Some commit of this kind covered the row. */
  predicate Reached(cs: seq<Commit>, kind: Kind, r: Row) {
    exists i :: 0 <= i < |cs| && cs[i].kind == kind && InPage(cs[i], r)
  }

  /** A row once the given runs have reached it. */
  function Settled(rs: Resolvers, r: Row, cim: bool, asset: bool, geo: bool): Row {
    var today, d := Ingested(rs, r.source), r.derived;
    r.(derived := Derived(
         if cim then today.cimModels else d.cimModels,
         if asset then today.asset else d.asset,
         if geo then today.geo else d.geo,
         if asset || geo then today.contextTags else d.contextTags))
  }

  lemma ReachedSnoc(cs: seq<Commit>, kind: Kind, r: Row)
    requires cs != []
    ensures var c := cs[|cs| - 1];
            Reached(cs, kind, r) <==> Reached(cs[..|cs| - 1], kind, r) || (c.kind == kind && InPage(c, r))
  {
    var front := cs[..|cs| - 1];
    if Reached(front, kind, r) {
      var i :| 0 <= i < |front| && front[i].kind == kind && InPage(front[i], r);
      assert cs[i] == front[i];
    }
    if Reached(cs, kind, r) {
      var i :| 0 <= i < |cs| && cs[i].kind == kind && InPage(cs[i], r);
      if i < |front| { assert front[i] == cs[i]; }
    }
  }

  /**
   * Pages of the three runs committed in any interleaving, with any chunk sizes, time windows,
   * crashes and restarts: each row depends only on which runs have reached it, never on the order.
   */
  lemma {:induction false} AnyInterleavingConverges(rs: Resolvers, cs: seq<Commit>, rows: seq<Row>, i: nat)
    requires i < |rows|
    ensures AfterCommits(rs, cs, rows)[i]
         == Settled(rs, rows[i], Reached(cs, CimRun, rows[i]),
                    Reached(cs, AssetRun, rows[i]), Reached(cs, GeoRun, rows[i]))
    decreases |cs|
  {
    if cs != [] {
      AnyInterleavingConverges(rs, cs[..|cs| - 1], rows, i);
      ReachedSnoc(cs, CimRun, rows[i]);
      ReachedSnoc(cs, AssetRun, rows[i]);
      ReachedSnoc(cs, GeoRun, rows[i]);
    }
  }

  /** Two histories that reached the same rows left the same table. */
  lemma SameReachSameTable(rs: Resolvers, cs: seq<Commit>, ds: seq<Commit>, rows: seq<Row>)
    requires forall k, r :: r in rows ==> (Reached(cs, k, r) <==> Reached(ds, k, r))
    ensures AfterCommits(rs, cs, rows) == AfterCommits(rs, ds, rows)
  {
    forall i | 0 <= i < |rows| ensures AfterCommits(rs, cs, rows)[i] == AfterCommits(rs, ds, rows)[i] {
      assert rows[i] in rows;
      AnyInterleavingConverges(rs, cs, rows, i);
      AnyInterleavingConverges(rs, ds, rows, i);
    }
  }

  /** Assets then geo, or geo then assets: the same table, over any stretch of ids. */
  lemma AssetsAndGeoCommute(rs: Resolvers, start: int, rows: seq<Row>)
    ensures RunGeo(rs, start, RunAssets(rs, start, rows)) == RunAssets(rs, start, RunGeo(rs, start, rows))
  {}

  /** Repeating either after both have run changes nothing, and finds no stale row. */
  lemma RepeatingIsFree(rs: Resolvers, start: int, rows: seq<Row>)
    ensures var both := RunGeo(rs, start, RunAssets(rs, start, rows));
            && RunAssets(rs, start, both) == both && RunGeo(rs, start, both) == both
            && StaleIn(AssetJob(rs, None, None), Covered(AssetJob(rs, None, None), start, None, both)) == []
            && StaleIn(GeoJob(rs, None, None), Covered(GeoJob(rs, None, None), start, None, both)) == []
  {
    JobsSettle(rs, None, None);
    AssetsAndGeoCommute(rs, start, rows);
    RederivedTwice(AssetJob(rs, None, None), start, None, RunGeo(rs, start, rows));
    RederivedTwice(GeoJob(rs, None, None), start, None, RunAssets(rs, start, rows));
  }

  /**
   * Once all three runs have reached a row, in whatever order and pages, it holds exactly what
   * ingest would store for it today.
   */
  lemma HistoryMeetsIngest(rs: Resolvers, cs: seq<Commit>, rows: seq<Row>, i: nat)
    requires i < |rows|
    requires Reached(cs, CimRun, rows[i]) && Reached(cs, AssetRun, rows[i]) && Reached(cs, GeoRun, rows[i])
    ensures AfterCommits(rs, cs, rows)[i].derived == Ingested(rs, rows[i].source)
  {
    AnyInterleavingConverges(rs, cs, rows, i);
  }

  /** An event whose registry context cannot be resolved is stored without it, keeping its geo context. */
  lemma UnresolvedIsStored(rs: Resolvers, s: Source)
    requires rs.asset(s).None?
    ensures Ingested(rs, s).asset == NO_ASSET
    ensures Ingested(rs, s).geo == GeoContext(rs.geo(s)).0
    ensures Ingested(rs, s).contextTags == OrNull(CanonicalTags(rs.fold, GeoContext(rs.geo(s)).1))
  {
    assert [] + GeoContext(rs.geo(s)).1 == GeoContext(rs.geo(s)).1;
  }

  /** A freshly ingested row is left alone by all three backfills. */
  lemma IngestedNotStale(rs: Resolvers, r: Row)
    requires r.derived == Ingested(rs, r.source)
    ensures !Stale(CimJob(rs, None, None), r) && !Stale(AssetJob(rs, None, None), r)
            && !Stale(GeoJob(rs, None, None), r)
  {}

  // ------------------------------------------------------- the guard in front of the geo run

  /**
   * `backfill_geo` refuses to run against an asset index that is empty while assets or identities
   * are declared; otherwise it is the common run.
   */
  method BackfillGeo(
    store: Store, rs: Resolvers, assetIndexEmpty: bool, declared: nat, since: Option<int>, until: Option<int>,
    chunk: int, startId: int, maxRows: Option<int>, hash: string)
    returns (out: Result<Outcome, string>)
    requires Ordered(store.rows)
    modifies store
    ensures out.Err? <==> assetIndexEmpty && declared > 0
    ensures out.Err? ==> store.rows == old(store.rows) && store.stamp == old(store.stamp)
    ensures out.Ok? && out.value.Finished? ==>
              var job, o := GeoJob(rs, since, until), out.value;
              && startId <= o.counts.lastId
              && store.rows == Rederived(job, startId, Some(o.counts.lastId), old(store.rows))
              && o.counts.scanned == |Covered(job, startId, Some(o.counts.lastId), old(store.rows))|
              && o.counts.updated == |StaleIn(job, Covered(job, startId, Some(o.counts.lastId), old(store.rows)))|
              && (o.done <==> maxRows.None? || |Covered(job, startId, None, old(store.rows))| < maxRows.value)
              && (o.done ==> store.rows == Rederived(job, startId, None, old(store.rows)))
              && o.fullPass == (startId == 0 && maxRows.None? && since.None? && until.None?)
              && store.stamp
                 == (if o.done && o.fullPass && old(store.stamp).Some? then Some(hash) else old(store.stamp))
    ensures out.Ok? && out.value.Died? ==>
              var job, last := GeoJob(rs, since, until), out.value.lastId;
              && store.rows == Rederived(job, startId, Some(last), old(store.rows)) && store.stamp == old(store.stamp)
              && !NoFailure(job, Covered(job, last, None, old(store.rows)))
  {
    if assetIndexEmpty && declared > 0 {
      return Err("refusing to run backfill_geo");
    }
    var o := Backfill(store, GeoJob(rs, since, until), chunk, startId, maxRows, hash, None);
    return Ok(o);
  }
}
