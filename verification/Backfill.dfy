/** The chunked, resumable history backfills of app/db.py, over one table of stored events. */
module Backfills {
  import opened Prelude

  /** What a derivation reads of a stored event: its normalized columns and its raw record. */
  datatype Source = Source(columns: map<string, string>, raw: string)

  /** The five columns the asset registry fills, less the shared labels. */
  datatype AssetCols = AssetCols(
    assetId: Option<string>, assetCriticality: Option<string>,
    identityId: Option<string>, identityPriority: Option<string>)

  datatype GeoCols = GeoCols(
    srcCountry: Option<string>, dstCountry: Option<string>, srcAsn: Option<int>, dstAsn: Option<int>)

  /** Every column a backfill may rewrite. */
  datatype Derived = Derived(
    cimModels: Option<seq<string>>, asset: AssetCols, geo: GeoCols, contextTags: Option<seq<string>>)

  /** A row of the `events` table. */
  datatype Row = Row(id: int, time: int, source: Source, derived: Derived)

  /**
   * What a run re-derives: an optional time window, `fails` telling the sources its resolver raises
   * on, and `target` giving the new columns of the others.
   */
  datatype Job = Job(
    since: Option<int>, until: Option<int>, fails: Source -> bool, target: (Source, Derived) -> Derived)

  predicate InWindow(job: Job, time: int) {
    (job.since.Some? ==> job.since.value <= time) && (job.until.Some? ==> time < job.until.value)
  }

  /** Deriving twice is deriving once: the derived columns are not an input of their own value. */
  ghost predicate Settles(job: Job) {
    forall s, d :: job.target(s, job.target(s, d)) == job.target(s, d)
  }

  /** `ORDER BY id` over one identity sequence. */
  ghost predicate Ordered(rows: seq<Row>) {
    forall i, j :: 0 <= i < j < |rows| ==> rows[i].id < rows[j].id
  }

  function Renew(job: Job, r: Row): Row {
    r.(derived := job.target(r.source, r.derived))
  }

  predicate Stale(job: Job, r: Row) {
    job.target(r.source, r.derived) != r.derived
  }

  /** In range and with an id in `(lo, hi]`; no `hi` means no upper end. */
  predicate Covers(job: Job, lo: int, hi: Option<int>, r: Row) {
    lo < r.id && (hi.Some? ==> r.id <= hi.value) && InWindow(job, r.time)
  }

  /** The table with every covered row equal to its derivation and no other row touched. */
  function Rederived(job: Job, lo: int, hi: Option<int>, rows: seq<Row>): (t: seq<Row>)
    ensures |t| == |rows|
    ensures forall i :: 0 <= i < |rows|
              ==> t[i] == if Covers(job, lo, hi, rows[i]) then Renew(job, rows[i]) else rows[i]
  {
    Map(r => if Covers(job, lo, hi, r) then Renew(job, r) else r, rows)
  }

  /** The resolver raises on none of the rows. */
  predicate NoFailure(job: Job, rows: seq<Row>) {
    forall r :: r in rows ==> !job.fails(r.source)
  }

  function CoverTest(job: Job, lo: int, hi: Option<int>): Row -> bool {
    r => Covers(job, lo, hi, r)
  }

  function Covered(job: Job, lo: int, hi: Option<int>, rows: seq<Row>): seq<Row> {
    Filter(CoverTest(job, lo, hi), rows)
  }

  function StaleTest(job: Job): Row -> bool {
    r => Stale(job, r)
  }

  function StaleIn(job: Job, rows: seq<Row>): seq<Row> {
    Filter(StaleTest(job), rows)
  }

  // ------------------------------------------------------- laws of re-deriving

  /** Stopping at `mid` and going on from there is one run. */
  lemma RederivedResumes(job: Job, lo: int, mid: int, hi: Option<int>, rows: seq<Row>)
    requires lo <= mid && (hi.Some? ==> mid <= hi.value)
    ensures Rederived(job, mid, hi, Rederived(job, lo, Some(mid), rows)) == Rederived(job, lo, hi, rows)
  {}

  /** Re-deriving what is derived changes nothing, and finds nothing stale. */
  lemma RederivedTwice(job: Job, lo: int, hi: Option<int>, rows: seq<Row>)
    requires Settles(job)
    ensures Rederived(job, lo, hi, Rederived(job, lo, hi, rows)) == Rederived(job, lo, hi, rows)
    ensures StaleIn(job, Covered(job, lo, hi, Rederived(job, lo, hi, rows))) == []
  {
    var t := Rederived(job, lo, hi, rows);
    FilterIn(CoverTest(job, lo, hi), t);
    forall r | r in Covered(job, lo, hi, t) ensures !Stale(job, r) {
      var i :| 0 <= i < |t| && t[i] == r;
    }
    FilterNone(StaleTest(job), Covered(job, lo, hi, t));
  }

  // ------------------------------------------------------- one page

  /** The keyset query: matching rows above the cursor, in id order, at most `limit` of them. */
  function Page(job: Job, after: int, limit: nat, rows: seq<Row>): seq<Row> {
    var all := Covered(job, after, None, rows);
    if |all| <= limit then all else all[..limit]
  }

  lemma {:induction false} FilterOrdered(p: Row -> bool, rows: seq<Row>)
    requires Ordered(rows)
    ensures Ordered(Filter(p, rows))
  {
    if rows != [] {
      FilterOrdered(p, rows[1..]);
      FilterIn(p, rows[1..]);
      var f := Filter(p, rows[1..]);
      forall j | 0 <= j < |f| ensures rows[0].id < f[j].id {
        assert f[j] in f;
        var k :| 0 <= k < |rows[1..]| && rows[1..][k] == f[j];
        assert rows[k + 1] == f[j];
      }
    }
  }

  lemma {:induction false} FilterFilter<T>(p: T -> bool, q: T -> bool, s: seq<T>)
    requires forall x :: x in s ==> (q(x) ==> p(x))
    ensures Filter(q, Filter(p, s)) == Filter(q, s)
  {
    if s != [] {
      FilterFilter(p, q, s[1..]);
      var head := if p(s[0]) then [s[0]] else [];
      FilterAppend(q, head, Filter(p, s[1..]));
      if p(s[0]) {
        assert Filter(q, [s[0]]) == (if q(s[0]) then [s[0]] else []) + Filter(q, [s[0]][1..]);
      }
    }
  }

  lemma {:induction false} FilterPrefix<T>(p: T -> bool, s: seq<T>, n: nat)
    requires n <= |s|
    requires forall i :: 0 <= i < n ==> p(s[i])
    requires forall i :: n <= i < |s| ==> !p(s[i])
    ensures Filter(p, s) == s[..n]
  {
    if s != [] {
      if n == 0 {
        FilterNone(p, s);
      } else {
        FilterPrefix(p, s[1..], n - 1);
        assert s[..n] == [s[0]] + s[1..][..n - 1];
      }
    }
  }

  /** Cutting the covered rows after the first `n` of them is cutting at the id of the last one kept. */
  lemma CutAtId(job: Job, after: int, rows: seq<Row>, n: nat)
    requires Ordered(rows) && 0 < n <= |Covered(job, after, None, rows)|
    ensures var all := Covered(job, after, None, rows); var last := all[n - 1].id;
            && after < last
            && all[..n] == Covered(job, after, Some(last), rows)
            && all[n..] == Covered(job, last, None, rows)
  {
    var all := Covered(job, after, None, rows);
    var last := all[n - 1].id;
    CoveredAre(job, after, rows);
    FilterPrefix(CoverTest(job, after, Some(last)), all, n);
    FilterFilter(CoverTest(job, after, None), CoverTest(job, after, Some(last)), rows);
    FilterSuffix(CoverTest(job, last, None), all, n);
    FilterFilter(CoverTest(job, after, None), CoverTest(job, last, None), rows);
  }

  lemma CoveredAre(job: Job, after: int, rows: seq<Row>)
    requires Ordered(rows)
    ensures var all := Covered(job, after, None, rows);
            Ordered(all) && forall i :: 0 <= i < |all| ==> Covers(job, after, None, all[i])
  {
    var all := Covered(job, after, None, rows);
    FilterOrdered(CoverTest(job, after, None), rows);
    FilterIn(CoverTest(job, after, None), rows);
    forall i | 0 <= i < |all| ensures Covers(job, after, None, all[i]) { assert all[i] in all; }
  }

  /** A page is exactly the covered rows up to its own last id. */
  lemma PageCovers(job: Job, after: int, limit: nat, rows: seq<Row>)
    requires Ordered(rows) && Page(job, after, limit, rows) != []
    ensures var page := Page(job, after, limit, rows); var last := page[|page| - 1].id;
            && page == Covered(job, after, Some(last), rows)
            && after < last
            && Covered(job, after, None, rows) == page + Covered(job, last, None, rows)
  {
    var all, page := Covered(job, after, None, rows), Page(job, after, limit, rows);
    CutAtId(job, after, rows, |page|);
    assert page == all[..|page|];
    assert all == all[..|page|] + all[|page|..];
  }

  lemma {:induction false} FilterSuffix<T>(p: T -> bool, s: seq<T>, n: nat)
    requires n <= |s|
    requires forall i :: 0 <= i < n ==> !p(s[i])
    requires forall i :: n <= i < |s| ==> p(s[i])
    ensures Filter(p, s) == s[n..]
  {
    if s != [] {
      if n == 0 {
        FilterSuffix(p, s[1..], 0);
      } else {
        FilterSuffix(p, s[1..], n - 1);
      }
    }
  }

  // ------------------------------------------------------- writing a page back

  /** One bound row of the `UPDATE`. */
  datatype Write = Write(id: int, time: int, derived: Derived)

  function WritesOf(job: Job, page: seq<Row>): seq<Write> {
    Map((r: Row) => Write(r.id, r.time, job.target(r.source, r.derived)), StaleIn(job, page))
  }

  function Update(w: Write, rows: seq<Row>): seq<Row> {
    Map((r: Row) => if r.id == w.id && r.time == w.time then r.(derived := w.derived) else r, rows)
  }

  function UpdateAll(ws: seq<Write>, rows: seq<Row>): seq<Row> {
    if ws == [] then rows else Update(ws[|ws| - 1], UpdateAll(ws[..|ws| - 1], rows))
  }

  /** Where a write for a row is found, all such writes agreeing, it lands; elsewhere nothing moves. */
  lemma {:induction false} UpdateAllAt(ws: seq<Write>, rows: seq<Row>, i: nat, d: Derived)
    requires i < |rows|
    requires forall w :: w in ws && w.id == rows[i].id && w.time == rows[i].time ==> w.derived == d
    ensures |UpdateAll(ws, rows)| == |rows|
    ensures UpdateAll(ws, rows)[i]
         == if exists w :: w in ws && w.id == rows[i].id && w.time == rows[i].time
            then rows[i].(derived := d) else rows[i]
  {
    if ws != [] {
      UpdateAllAt(ws[..|ws| - 1], rows, i, d);
      assert ws == ws[..|ws| - 1] + [ws[|ws| - 1]];
      if w :| w in ws && w.id == rows[i].id && w.time == rows[i].time {
        assert w in ws[..|ws| - 1] || w == ws[|ws| - 1];
      }
    }
  }

  lemma SameIdSameRow(rows: seq<Row>, i: nat, r: Row)
    requires Ordered(rows) && i < |rows| && r in rows && r.id == rows[i].id
    ensures r == rows[i]
  {
    var j :| 0 <= j < |rows| && rows[j] == r;
  }

  /** The writes of exactly the covered rows re-derive the table on that stretch. */
  lemma WritesRederive(job: Job, lo: int, hi: Option<int>, rows: seq<Row>)
    requires Ordered(rows)
    ensures UpdateAll(WritesOf(job, Covered(job, lo, hi, rows)), rows) == Rederived(job, lo, hi, rows)
  {
    var page := Covered(job, lo, hi, rows);
    var ws := WritesOf(job, page);
    var u := UpdateAll(ws, rows);
    UpdateAllLength(ws, rows);
    forall i | 0 <= i < |rows| ensures u[i] == Rederived(job, lo, hi, rows)[i] {
      WritesFor(job, lo, hi, rows, i);
      UpdateAllAt(ws, rows, i, job.target(rows[i].source, rows[i].derived));
    }
  }

  lemma {:induction false} UpdateAllLength(ws: seq<Write>, rows: seq<Row>)
    ensures |UpdateAll(ws, rows)| == |rows|
  {
    if ws != [] { UpdateAllLength(ws[..|ws| - 1], rows); }
  }

  /** A row is written exactly when it is covered and stale, and with its own derivation. */
  lemma WritesFor(job: Job, lo: int, hi: Option<int>, rows: seq<Row>, i: nat)
    requires Ordered(rows) && i < |rows|
    ensures var ws := WritesOf(job, Covered(job, lo, hi, rows));
            && (forall w :: w in ws && w.id == rows[i].id && w.time == rows[i].time
                  ==> w.derived == job.target(rows[i].source, rows[i].derived))
            && ((exists w :: w in ws && w.id == rows[i].id && w.time == rows[i].time)
                  <==> Covers(job, lo, hi, rows[i]) && Stale(job, rows[i]))
  {
    var page := Covered(job, lo, hi, rows);
    var stale := StaleIn(job, page);
    var ws := WritesOf(job, page);
    FilterIn(CoverTest(job, lo, hi), rows);
    FilterIn(StaleTest(job), page);
    forall w | w in ws && w.id == rows[i].id && w.time == rows[i].time
      ensures w.derived == job.target(rows[i].source, rows[i].derived)
      ensures Covers(job, lo, hi, rows[i]) && Stale(job, rows[i])
    {
      var k :| 0 <= k < |ws| && ws[k] == w;
      assert stale[k] in stale;
      SameIdSameRow(rows, i, stale[k]);
    }
    if Covers(job, lo, hi, rows[i]) && Stale(job, rows[i]) {
      assert rows[i] in page && rows[i] in stale;
      var k :| 0 <= k < |stale| && stale[k] == rows[i];
      assert ws[k] in ws;
    }
  }

  // ------------------------------------------------------- the run

  class Store {
    var rows: seq<Row>
    /** The "history is current" fingerprint; nothing when the meta row does not exist. */
    var stamp: Option<string>
  }

  datatype Counts = Counts(scanned: nat, updated: nat, same: nat, chunks: nat, lastId: int)

  /** How a run ends: on its own, or killed or by an exception after some number of committed chunks. */
  datatype Outcome =
    | Finished(counts: Counts, done: bool, fullPass: bool)
    | Died(lastId: int)

  lemma {:induction false} FilterPointwise<T>(p: T -> bool, s: seq<T>, t: seq<T>)
    requires |s| == |t|
    requires forall i :: 0 <= i < |s| ==> p(s[i]) == p(t[i]) && (p(s[i]) ==> s[i] == t[i])
    ensures Filter(p, s) == Filter(p, t)
  {
    if s != [] { FilterPointwise(p, s[1..], t[1..]); }
  }

  /** What is still ahead of the cursor is not changed by what was done behind it. */
  lemma AheadUntouched(job: Job, lo: int, mid: int, hi: Option<int>, rows: seq<Row>)
    ensures Covered(job, mid, hi, Rederived(job, lo, Some(mid), rows)) == Covered(job, mid, hi, rows)
  {
    FilterPointwise(CoverTest(job, mid, hi), Rederived(job, lo, Some(mid), rows), rows);
  }

  /** The comparison of a page with its derivation: one bound row per difference. */
  method CollectWrites(job: Job, page: seq<Row>) returns (writes: seq<Write>)
    ensures writes == WritesOf(job, page)
  {
    writes := [];
    WritesNone(job, page[..0]);
    for i := 0 to |page|
      invariant writes == WritesOf(job, page[..i])
    {
      var r := page[i];
      var derived := job.target(r.source, r.derived);
      WritesSnoc(job, page, i);
      if derived != r.derived {
        writes := writes + [Write(r.id, r.time, derived)];
      }
    }
    assert page[..|page|] == page;
  }

  lemma WritesNone(job: Job, page: seq<Row>)
    requires page == []
    ensures WritesOf(job, page) == []
  {}

  /** One loop turn's comparison, `executemany` and commit. */
  method CommitPage(store: Store, job: Job, after: int, page: seq<Row>) returns (written: nat)
    requires Ordered(store.rows) && page != []
    requires page == Covered(job, after, Some(page[|page| - 1].id), store.rows)
    modifies store`rows
    ensures store.rows == Rederived(job, after, Some(page[|page| - 1].id), old(store.rows))
    ensures written == |StaleIn(job, page)|
  {
    var writes := CollectWrites(job, page);
    written := |writes|;
    for i := 0 to |writes|
      invariant store.rows == UpdateAll(writes[..i], old(store.rows))
    {
      assert writes[..i + 1][..i] == writes[..i] && writes[..i + 1][i] == writes[i];
      store.rows := Update(writes[i], store.rows);
    }
    assert writes[..|writes|] == writes;
    WritesRederive(job, after, Some(page[|page| - 1].id), old(store.rows));
  }

  lemma WritesSnoc(job: Job, page: seq<Row>, i: nat)
    requires i < |page|
    ensures WritesOf(job, page[..i + 1]) == WritesOf(job, page[..i])
              + (if Stale(job, page[i])
                  then [Write(page[i].id, page[i].time, job.target(page[i].source, page[i].derived))]
                  else [])
  {
    assert page[..i + 1] == page[..i] + [page[i]];
    FilterAppend(StaleTest(job), page[..i], [page[i]]);
    assert Filter(StaleTest(job), [page[i]])
         == (if Stale(job, page[i]) then [page[i]] else []) + Filter(StaleTest(job), [page[i]][1..]);
  }

  /** Where a run stands when the cursor is at `cursor`. */
  ghost predicate Standing(
    job: Job, start: int, cursor: int, before: seq<Row>, current: seq<Row>, scanned: nat, updated: nat)
  {
    && start <= cursor
    && current == Rederived(job, start, Some(cursor), before)
    && scanned == |Covered(job, start, Some(cursor), before)|
    && updated == |StaleIn(job, Covered(job, start, Some(cursor), before))|
    && Covered(job, start, None, before)
         == Covered(job, start, Some(cursor), before) + Covered(job, cursor, None, before)
  }

  lemma StandingAtStart(job: Job, start: int, rows: seq<Row>)
    ensures Standing(job, start, start, rows, rows, 0, 0)
  {
    FilterNone(CoverTest(job, start, Some(start)), rows);
    assert Rederived(job, start, Some(start), rows) == rows;
  }

  /** Committing one page moves the cursor and keeps the standing. */
  lemma StandingAfterPage(
    job: Job, start: int, cursor: int, limit: nat, before: seq<Row>, current: seq<Row>, scanned: nat, updated: nat,
    page: seq<Row>, last: int)
    requires Ordered(before) && Standing(job, start, cursor, before, current, scanned, updated)
    requires page == Page(job, cursor, limit, current) && page != [] && last == page[|page| - 1].id
    ensures page == Covered(job, cursor, Some(last), current) == Covered(job, cursor, Some(last), before)
    ensures Covered(job, start, Some(last), before) == Covered(job, start, Some(cursor), before) + page
    ensures Standing(job, start, last, before, Rederived(job, cursor, Some(last), current),
                     scanned + |page|, updated + |StaleIn(job, page)|)
    ensures Covered(job, cursor, None, before) == page + Covered(job, last, None, before)
  {
    AheadUntouched(job, start, cursor, None, before);
    PageCovers(job, cursor, limit, before);
    AheadUntouched(job, start, cursor, Some(last), before);
    RederivedResumes(job, start, cursor, Some(last), before);
    var done := Covered(job, start, Some(cursor), before);
    assert Covered(job, start, None, before) == done + (page + Covered(job, last, None, before));
    Assoc(done, page, Covered(job, last, None, before));
    CoveredJoins(job, start, cursor, last, before);
    FilterAppend(StaleTest(job), done, page);
  }

  /** Covered rows up to `mid` and then up to `hi` are the covered rows up to `hi`. */
  lemma CoveredJoins(job: Job, lo: int, mid: int, hi: int, rows: seq<Row>)
    requires Ordered(rows) && lo <= mid <= hi
    ensures Covered(job, lo, Some(hi), rows) == Covered(job, lo, Some(mid), rows) + Covered(job, mid, Some(hi), rows)
  {
    if rows != [] {
      CoveredJoins(job, lo, mid, hi, rows[1..]);
      var r := rows[0];
      if Covers(job, lo, Some(hi), r) && !Covers(job, lo, Some(mid), r) {
        forall x | x in rows[1..] ensures !Covers(job, lo, Some(mid), x) {
          var k :| 0 <= k < |rows[1..]| && rows[1..][k] == x;
          assert rows[0].id < rows[k + 1].id;
        }
        FilterNone(CoverTest(job, lo, Some(mid)), rows[1..]);
      }
    }
  }

  lemma RederivedOrdered(job: Job, lo: int, hi: Option<int>, rows: seq<Row>)
    requires Ordered(rows)
    ensures Ordered(Rederived(job, lo, hi, rows))
  {}

  /** With nothing covered above `mid`, an upper end at `mid` is no upper end. */
  lemma NothingAhead(job: Job, lo: int, mid: int, rows: seq<Row>)
    requires Covered(job, mid, None, rows) == [] && lo <= mid
    ensures Rederived(job, lo, Some(mid), rows) == Rederived(job, lo, None, rows)
  {
    FilterIn(CoverTest(job, mid, None), rows);
    forall i | 0 <= i < |rows| ensures Covers(job, lo, Some(mid), rows[i]) == Covers(job, lo, None, rows[i]) {
      assert rows[i] in rows;
      assert !CoverTest(job, mid, None)(rows[i]);
    }
  }

  /** Why the loop stopped. */
  datatype Stop = Exhausted | Bound | Killed | Raised

  /** The loop of a run: page after page until the rows, the bound or the process runs out. */
  method Sweep(store: Store, job: Job, size: nat, startId: int, maxRows: Option<int>, dieAfter: Option<nat>)
    returns (c: Counts, stop: Stop)
    requires Ordered(store.rows) && size > 0
    modifies store`rows
    ensures Standing(job, startId, c.lastId, old(store.rows), store.rows, c.scanned, c.updated)
    ensures c.same == c.scanned - c.updated
    ensures stop == Exhausted ==> Covered(job, c.lastId, None, old(store.rows)) == []
                                  && (maxRows.Some? ==> c.scanned < maxRows.value)
    ensures stop == Bound ==> maxRows.Some? && c.scanned == (if maxRows.value < 0 then 0 else maxRows.value)
    ensures stop == Killed ==> dieAfter == Some(c.chunks)
    ensures stop == Raised ==> !NoFailure(job, Covered(job, c.lastId, None, old(store.rows)))
    ensures NoFailure(job, Covered(job, startId, Some(c.lastId), old(store.rows)))
  {
    c := Counts(0, 0, 0, 0, startId);
    ghost var before := store.rows;
    StandingAtStart(job, startId, before);
    while true
      invariant Ordered(store.rows)
      invariant Standing(job, startId, c.lastId, before, store.rows, c.scanned, c.updated)
      invariant c.same == c.scanned - c.updated
      invariant maxRows.Some? && maxRows.value >= 0 ==> c.scanned <= maxRows.value
      invariant maxRows.Some? && maxRows.value < 0 ==> c.scanned == 0
      invariant NoFailure(job, Covered(job, startId, Some(c.lastId), before))
      decreases |Covered(job, c.lastId, None, before)|
    {
      if dieAfter == Some(c.chunks) {
        return c, Killed;
      }
      var budget := if maxRows.Some? && maxRows.value - c.scanned < size then maxRows.value - c.scanned else size;
      if budget <= 0 {
        return c, Bound;
      }
      AheadUntouched(job, startId, c.lastId, None, before);
      var page := Page(job, c.lastId, budget, store.rows);
      if page == [] {
        return c, Exhausted;
      }
      var last := page[|page| - 1].id;
      StandingAfterPage(job, startId, c.lastId, budget, before, store.rows, c.scanned, c.updated, page, last);
      if exists r :: r in page && job.fails(r.source) {
        return c, Raised;
      }
      RederivedOrdered(job, c.lastId, Some(last), store.rows);
      var written := CommitPage(store, job, c.lastId, page);
      StaleAtMost(job, page);
      c := Counts(c.scanned + |page|, c.updated + written, c.same + (|page| - written), c.chunks + 1, last);
      if |page| < budget {
        return c, Exhausted;
      }
    }
  }

  lemma StaleAtMost(job: Job, page: seq<Row>)
    ensures |StaleIn(job, page)| <= |page|
  {}

  /** `done` says exactly that fewer rows than the bound were there to visit. */
  lemma DoneMeans(
    job: Job, start: int, c: Counts, stop: Stop, maxRows: Option<int>, before: seq<Row>, current: seq<Row>)
    requires Standing(job, start, c.lastId, before, current, c.scanned, c.updated)
    requires stop == Exhausted
           ==> Covered(job, c.lastId, None, before) == [] && (maxRows.Some? ==> c.scanned < maxRows.value)
    requires stop == Bound ==> maxRows.Some? && maxRows.value <= c.scanned
    ensures stop == Exhausted || stop == Bound
            ==> (stop == Exhausted <==> maxRows.None? || |Covered(job, start, None, before)| < maxRows.value)
    ensures stop == Exhausted ==> current == Rederived(job, start, None, before)
  {
    if stop == Exhausted { NothingAhead(job, start, c.lastId, before); }
  }

  /**
   * A run, of any chunk size and with any bounds. `dieAfter` is the number of commits after which
   * the process is killed, if it is.
   */
  method Backfill(
    store: Store, job: Job, chunk: int, startId: int, maxRows: Option<int>, hash: string, dieAfter: Option<nat>)
    returns (out: Outcome)
    requires Ordered(store.rows)
    modifies store
    ensures out.Died? ==>
              && startId <= out.lastId
              && store.rows == Rederived(job, startId, Some(out.lastId), old(store.rows))
              && store.stamp == old(store.stamp)
    ensures out.Finished? ==>
              var c := out.counts;
              && startId <= c.lastId
              && store.rows == Rederived(job, startId, Some(c.lastId), old(store.rows))
              && c.scanned == |Covered(job, startId, Some(c.lastId), old(store.rows))|
              && c.updated == |StaleIn(job, Covered(job, startId, Some(c.lastId), old(store.rows)))|
              && c.same == c.scanned - c.updated
              && out.fullPass == (startId == 0 && maxRows.None? && job.since.None? && job.until.None?)
              && store.stamp
                 == (if out.done && out.fullPass && old(store.stamp).Some? then Some(hash) else old(store.stamp))
    ensures out.Finished? && out.done ==> store.rows == Rederived(job, startId, None, old(store.rows))
    ensures out.Finished? ==>
              (out.done <==> maxRows.None? || |Covered(job, startId, None, old(store.rows))| < maxRows.value)
    ensures out.Finished? && !out.done ==> out.counts.scanned == (if maxRows.value < 0 then 0 else maxRows.value)
    ensures out.Finished? ==> NoFailure(job, Covered(job, startId, Some(out.counts.lastId), old(store.rows)))
    ensures dieAfter.None? && maxRows.None? ==>
              (out.Finished? <==> NoFailure(job, Covered(job, startId, None, old(store.rows))))
    ensures out.Died? && dieAfter.None? ==> !NoFailure(job, Covered(job, out.lastId, None, old(store.rows)))
  {
    var size := if chunk < 1 then 1 else chunk;
    var fullPass := startId == 0 && maxRows.None? && job.since.None? && job.until.None?;
    ghost var before := store.rows;
    var c, stop := Sweep(store, job, size, startId, maxRows, dieAfter);
    DoneMeans(job, startId, c, stop, maxRows, before, store.rows);
    if stop == Killed || stop == Raised {
      return Died(c.lastId);
    }
    var done := stop == Exhausted;
    if done && fullPass && store.stamp.Some? {
      store.stamp := Some(hash);
    }
    return Finished(c, done, fullPass);
  }

  /**
   * The stamp tells the truth exactly when every row the cursor can never reach (an id not above
   * zero) happens to be current: a full run leaves nothing stale otherwise.
   */
  lemma StampIsTrue(job: Job, rows: seq<Row>)
    requires Settles(job) && job.since.None? && job.until.None?
    ensures StaleIn(job, Rederived(job, 0, None, rows)) == []
       <==> forall r :: r in rows && r.id <= 0 ==> !Stale(job, r)
  {
    var t := Rederived(job, 0, None, rows);
    FilterIn(StaleTest(job), t);
    if forall r :: r in rows && r.id <= 0 ==> !Stale(job, r) {
      forall r | r in t ensures !StaleTest(job)(r) {
        var i :| 0 <= i < |t| && t[i] == r;
        assert rows[i] in rows;
      }
      FilterNone(StaleTest(job), t);
    }
    if StaleIn(job, t) == [] {
      forall r | r in rows && r.id <= 0 ensures !Stale(job, r) {
        var i :| 0 <= i < |rows| && rows[i] == r;
        assert t[i] in t;
        assert t[i] !in StaleIn(job, t);
      }
    }
  }

  /** So, ids being above zero, a full pass that is done leaves no stale row. */
  lemma FullPassLeavesNothingStale(job: Job, rows: seq<Row>)
    requires Settles(job) && job.since.None? && job.until.None?
    requires forall r :: r in rows ==> r.id > 0
    ensures StaleIn(job, Rederived(job, 0, None, rows)) == []
  {
    StampIsTrue(job, rows);
  }

  lemma OneRowCovered(job: Job, lo: int, hi: Option<int>, r: Row)
    ensures Covered(job, lo, hi, [r]) == if Covers(job, lo, hi, r) then [r] else []
  {
    assert [r][1..] == [];
  }

  /**
   * One row and a bound of one: the row is brought up to date, nothing is left to visit, and the run
   * still says it is not done.
   */
  method ExactBoundIsNotDone(store: Store, job: Job, r: Row) returns (out: Outcome)
    requires store.rows == [r] && r.id == 1 && InWindow(job, r.time) && !job.fails(r.source)
    modifies store
    ensures out.Finished? && !out.done && out.counts.scanned == 1
    ensures store.rows == [Renew(job, r)] && Covered(job, out.counts.lastId, None, [r]) == []
  {
    assert Covered(job, 0, None, [r]) == [r] && [r][1..] == [];
    out := Backfill(store, job, 1, 0, Some(1), "", None);
    if out.Died? { OneRowCovered(job, out.lastId, None, r); }
    if out.Finished? { OneRowCovered(job, 0, Some(out.counts.lastId), r); }
  }
}
