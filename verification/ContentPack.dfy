/** app/contentpack.py: planning and applying content packs against the parser and rule tables. */
module ContentPacks {
  import opened Prelude

  datatype Kind = Parser | Rule

  /** One object of a pack document. */
  datatype Entry =
    | ParserEntry(id: string, title: string, matchKey: string, matchValue: string, fieldMap: map<string, string>,
                  vendor: string, product: string, kvSource: string, kvSep: string, enabled: bool)
    | RuleEntry(id: string, title: string, yaml: string, enabled: bool)

  /** One row of `custom_parsers` or `custom_rules`. */
  datatype Row =
    | ParserRow(title: string, matchKey: string, matchValue: string, fieldMap: map<string, string>,
                vendor: Option<string>, product: Option<string>, kvSource: Option<string>, kvSep: Option<string>,
                enabled: bool)
    | RuleRow(title: string, yaml: string, enabled: bool)

  /** The two tables are addressed together, by section and id. */
  type Key = (Kind, string)

  datatype Pack = Pack(name: string, version: string, entries: seq<Entry>)

  /** The two tables and the installed packs, oldest first. */
  datatype Db = Db(rows: map<Key, Row>, packs: seq<Pack>)

  const PARSER_COLUMNS: set<string> := {
    "vendor", "product", "log_type", "severity", "action", "src_ip", "dst_ip", "protocol", "app", "user_name",
    "host_name", "rule_name", "message"}

  function KeyOf(e: Entry): Key {
    (if e.ParserEntry? then Parser else Rule, e.id)
  }

  function OrNull(s: string): Option<string> { if s == "" then None else Some(s) }

  function OrBlank(s: Option<string>): string { if s.None? then "" else s.value }

  /** What the writer stores for an entry. */
  function WriteRow(e: Entry): Row {
    match e
    case ParserEntry(_, title, key, value, fm, vendor, product, src, sep, on) =>
      ParserRow(title, key, value, fm, OrNull(vendor), OrNull(product), OrNull(src), OrNull(sep), on)
    case RuleEntry(_, title, yaml, on) => RuleRow(title, yaml, on)
  }

  /** `parser_entry_from_row`. */
  function EntryFromRow(id: string, r: Row): Entry
    requires r.ParserRow?
  {
    ParserEntry(id, if r.title == "" then id else r.title, r.matchKey, r.matchValue,
                map k | k in r.fieldMap && r.fieldMap[k] in PARSER_COLUMNS :: r.fieldMap[k],
                OrBlank(r.vendor), OrBlank(r.product), OrBlank(r.kvSource), OrBlank(r.kvSep), r.enabled)
  }

  /** Is the stored row already this entry? A rule is compared by its YAML text only. */
  predicate Same(e: Entry, r: Row) {
    match e
    case ParserEntry(id, _, _, _, _, _, _, _, _, _) => r.ParserRow? && EntryFromRow(id, r) == e
    case RuleEntry(_, _, yaml, _) => r.RuleRow? && r.yaml == yaml
  }

  /** What parsing a document guarantees of each entry. */
  /** The column of an optional text: NULL for the empty text, the text otherwise. */
  predicate Holds(column: Option<string>, text: string) {
    if text == "" then column == None else column == Some(text)
  }

  /** The row an object is written as, column by column. */
  lemma RowMeans(e: Entry)
    ensures KeyOf(e).1 == e.id && (KeyOf(e).0.Parser? <==> e.ParserEntry?)
    ensures var r := WriteRow(e);
            && r.title == e.title && r.enabled == e.enabled
            && (e.RuleEntry? ==> r.RuleRow? && r.yaml == e.yaml)
            && (e.ParserEntry? ==>
                  && r.ParserRow? && r.matchKey == e.matchKey && r.matchValue == e.matchValue
                  && r.fieldMap == e.fieldMap && Holds(r.vendor, e.vendor) && Holds(r.product, e.product)
                  && Holds(r.kvSource, e.kvSource) && Holds(r.kvSep, e.kvSep))
  {}

  predicate ValidEntry(e: Entry) {
    e.ParserEntry? ==> e.title != "" && forall k :: k in e.fieldMap ==> e.fieldMap[k] in PARSER_COLUMNS
  }

  /** What parsing a document guarantees: a name, and no id twice in a section. */
  /**
   * A stored object reads as unchanged exactly when it was written from the same document entry; of a rule
   * only the YAML text is compared.
   */
  lemma UnchangedExactly(e: Entry, f: Entry)
    requires ValidEntry(e) && ValidEntry(f) && e.id == f.id && (e.ParserEntry? <==> f.ParserEntry?)
    ensures Same(e, WriteRow(f)) <==> (if e.ParserEntry? then e == f else e.yaml == f.yaml)
  {
    RowMeans(f);
    if f.ParserEntry? {
      var read := map k | k in f.fieldMap && f.fieldMap[k] in PARSER_COLUMNS :: f.fieldMap[k];
      assert read == f.fieldMap;
    }
  }

  ghost predicate ValidPack(p: Pack) {
    && p.name != ""
    && (forall e :: e in p.entries ==> ValidEntry(e))
    && (forall i, j :: 0 <= i < j < |p.entries| ==> KeyOf(p.entries[i]) != KeyOf(p.entries[j]))
  }

  predicate Has(p: Pack, k: Key) {
    exists e :: e in p.entries && KeyOf(e) == k
  }

  /** `owner_of`: later packs overwrite earlier ones in the snapshot; nobody is the empty name. */
  function Owner(packs: seq<Pack>, k: Key): string {
    if packs == [] then ""
    else if Has(packs[|packs| - 1], k) then packs[|packs| - 1].name
    else Owner(packs[..|packs| - 1], k)
  }

  function Installed(packs: seq<Pack>, name: string): Option<Pack> {
    if packs == [] then None
    else if packs[|packs| - 1].name == name then Some(packs[|packs| - 1])
    else Installed(packs[..|packs| - 1], name)
  }

  // ------------------------------------------------------- planning

  datatype Verb = Create | Update | Unchanged | Delete | Conflict

  /** What an import would do to one object, or (with no key) to the pack row itself. */
  datatype Change = Change(key: Option<Key>, verb: Verb)

  datatype Plan = Plan(pack: Pack, changes: seq<Change>, problems: seq<string>)

  /** `_verb`: ownership is what separates an update from a conflict. */
  function VerbFor(present: bool, same: bool, owner: string, packName: string, overwrite: bool): Verb {
    if !present then Create
    else if owner != "" && owner != packName && !overwrite then Conflict
    else if owner == "" && !overwrite then Conflict
    else if same then Unchanged else Update
  }

  function EntryVerb(db: Db, pack: Pack, overwrite: bool, e: Entry): Verb {
    var k := KeyOf(e);
    VerbFor(k in db.rows, k in db.rows && Same(e, db.rows[k]), Owner(db.packs, k), pack.name, overwrite)
  }

  function EntryChange(db: Db, pack: Pack, overwrite: bool, e: Entry): Change {
    Change(Some(KeyOf(e)), EntryVerb(db, pack, overwrite, e))
  }

  function DropChange(e: Entry): Change { Change(Some(KeyOf(e)), Delete) }

  function KeptBy(pack: Pack): Entry -> bool { (e: Entry) => !Has(pack, KeyOf(e)) }

  /** Deletions for what the installed version carried and this one does not. */
  function DropChanges(db: Db, pack: Pack): seq<Change> {
    match Installed(db.packs, pack.name)
    case None => []
    case Some(previous) => Map(DropChange, Filter(KeptBy(pack), previous.entries))
  }

  function PlanInstall(pack: Pack, db: Db, overwrite: bool, problems: seq<string>): Plan {
    Plan(pack,
         [Change(None, if Installed(db.packs, pack.name).Some? then Update else Create)]
         + Map((e: Entry) => EntryChange(db, pack, overwrite, e), pack.entries)
         + DropChanges(db, pack),
         problems)
  }

  function OwnedBy(db: Db, name: string): Entry -> bool {
    e => Owner(db.packs, KeyOf(e)) == "" || Owner(db.packs, KeyOf(e)) == name
  }

  /** `plan_uninstall`; nothing when the pack is not installed. */
  function PlanUninstall(name: string, db: Db): Option<Plan> {
    match Installed(db.packs, name)
    case None => None
    case Some(p) => Some(Plan(p, [Change(None, Delete)] + Map(DropChange, Filter(OwnedBy(db, name), p.entries)), []))
  }

  /** The loops of `plan_install`. */
  method PlanInstallChanges(pack: Pack, db: Db, overwrite: bool, problems: seq<string>) returns (plan: Plan)
    ensures plan == PlanInstall(pack, db, overwrite, problems)
  {
    var f := (e: Entry) => EntryChange(db, pack, overwrite, e);
    var previous := Installed(db.packs, pack.name);
    var head := [Change(None, if previous.Some? then Update else Create)];
    var changes: seq<Change> := [];
    for i := 0 to |pack.entries|
      invariant changes == Map(f, pack.entries[..i])
    {
      MapSnoc(f, pack.entries, i);
      var e := pack.entries[i];
      var row: Option<Row> := if KeyOf(e) in db.rows then Some(db.rows[KeyOf(e)]) else None;
      var verb := VerbFor(row.Some?, row.Some? && Same(e, row.value), Owner(db.packs, KeyOf(e)), pack.name, overwrite);
      changes := changes + [Change(Some(KeyOf(e)), verb)];
    }
    assert pack.entries[..|pack.entries|] == pack.entries;
    var drops := PlanDrops(pack, previous);
    return Plan(pack, head + changes + drops, problems);
  }

  method PlanDrops(pack: Pack, previous: Option<Pack>) returns (drops: seq<Change>)
    ensures drops == if previous.None? then [] else Map(DropChange, Filter(KeptBy(pack), previous.value.entries))
  {
    drops := [];
    if previous.None? {
      return;
    }
    var es := previous.value.entries;
    for i := 0 to |es|
      invariant drops == Map(DropChange, Filter(KeptBy(pack), es[..i]))
    {
      assert es[..i + 1] == es[..i] + [es[i]];
      FilterAppend(KeptBy(pack), es[..i], [es[i]]);
      FilterOne(KeptBy(pack), es[i]);
      if !Has(pack, KeyOf(es[i])) {
        MapAppend(DropChange, Filter(KeptBy(pack), es[..i]), [es[i]]);
        drops := drops + [DropChange(es[i])];
      }
    }
    assert es[..|es|] == es;
  }

  lemma FilterOne(p: Entry -> bool, e: Entry)
    ensures Filter(p, [e]) == if p(e) then [e] else []
  {
    assert [e][1..] == [];
  }

  lemma MapAppend(f: Entry -> Change, a: seq<Entry>, b: seq<Entry>)
    ensures Map(f, a + b) == Map(f, a) + Map(f, b)
  {}

  lemma MapSnoc(f: Entry -> Change, s: seq<Entry>, i: nat)
    requires i < |s|
    ensures Map(f, s[..i + 1]) == Map(f, s[..i]) + [f(s[i])]
  {}

  // ------------------------------------------------------- applying

  /** `by_ident`: the last change listed for a key. */
  function VerbOf(changes: seq<Change>, key: Option<Key>): Option<Verb> {
    if changes == [] then None
    else if changes[|changes| - 1].key == key then Some(changes[|changes| - 1].verb)
    else VerbOf(changes[..|changes| - 1], key)
  }

  predicate Conflicted(changes: seq<Change>) {
    exists c :: c in changes && c.verb == Conflict
  }

  function ToPut(plan: Plan): Entry -> bool {
    e => VerbOf(plan.changes, Some(KeyOf(e))) == Some(Create) || VerbOf(plan.changes, Some(KeyOf(e))) == Some(Update)
  }

  function IsDrop(): Change -> bool { (c: Change) => c.verb == Delete && c.key.Some? }

  /** The staged writes of a plan. */
  datatype Staged = Staged(puts: seq<Entry>, drops: seq<Key>, pack: Option<Pack>, removedPack: string)

  function DropKey(c: Change): Key { if c.key.Some? then c.key.value else (Parser, "") }

  function Stage(plan: Plan): Staged {
    var gone := VerbOf(plan.changes, None) == Some(Delete);
    Staged(Filter(ToPut(plan), plan.pack.entries),
           Map(DropKey, Filter(IsDrop(), plan.changes)),
           if gone then None else Some(plan.pack),
           if gone then plan.pack.name else "")
  }

  function PutAll(es: seq<Entry>, rows: map<Key, Row>): map<Key, Row> {
    if es == [] then rows else PutAll(es[..|es| - 1], rows)[KeyOf(es[|es| - 1]) := WriteRow(es[|es| - 1])]
  }

  function OtherName(name: string): Pack -> bool { (p: Pack) => p.name != name }

  /** `apply_content_pack`: upserts, deletions, and the pack row, as one transaction. */
  function Commit(s: Staged, db: Db): Db {
    Db(PutAll(s.puts, db.rows) - (set k | k in s.drops),
       if s.removedPack != "" then Filter(OtherName(s.removedPack), db.packs)
       else match s.pack
         case None => db.packs
         case Some(p) => Filter(OtherName(p.name), db.packs) + [p])
  }

  /** A plan with a problem or a conflict is refused and writes nothing. */
  function Apply(plan: Plan, db: Db): Result<Db, string> {
    if plan.problems != [] then Err("cannot be imported")
    else if Conflicted(plan.changes) then Err("conflicts with existing content")
    else Ok(Commit(Stage(plan), db))
  }

  /** The buffering writer. */
  class PackWriter {
    var puts: seq<Entry>
    var drops: seq<Key>
    var pack: Option<Pack>
    var removedPack: string

    function Buffer(): Staged
      reads this
    {
      Staged(puts, drops, pack, removedPack)
    }

    constructor ()
      ensures Buffer() == Staged([], [], None, "")
    {
      puts, drops, pack, removedPack := [], [], None, "";
    }

    /** The loops over the document's entries. */
    method StagePuts(plan: Plan)
      modifies this
      ensures puts == old(puts) + Filter(ToPut(plan), plan.pack.entries)
      ensures drops == old(drops) && pack == old(pack) && removedPack == old(removedPack)
    {
      var es := plan.pack.entries;
      for i := 0 to |es|
        invariant puts == old(puts) + Filter(ToPut(plan), es[..i])
        invariant drops == old(drops) && pack == old(pack) && removedPack == old(removedPack)
      {
        assert es[..i + 1] == es[..i] + [es[i]];
        FilterAppend(ToPut(plan), es[..i], [es[i]]);
        FilterOne(ToPut(plan), es[i]);
        Assoc(old(puts), Filter(ToPut(plan), es[..i]), [es[i]]);
        var verb := VerbOf(plan.changes, Some(KeyOf(es[i])));
        if verb == Some(Create) || verb == Some(Update) {
          puts := puts + [es[i]];
        }
      }
      assert es[..|es|] == es;
    }

    /** The loop over the changes that delete. */
    method StageDrops(changes: seq<Change>)
      modifies this
      ensures drops == old(drops) + Map(DropKey, Filter(IsDrop(), changes))
      ensures puts == old(puts) && pack == old(pack) && removedPack == old(removedPack)
    {
      for i := 0 to |changes|
        invariant drops == old(drops) + Map(DropKey, Filter(IsDrop(), changes[..i]))
        invariant puts == old(puts) && pack == old(pack) && removedPack == old(removedPack)
      {
        DropStep(changes, i);
        Assoc(old(drops), Map(DropKey, Filter(IsDrop(), changes[..i])), [DropKey(changes[i])]);
        if changes[i].verb == Delete && changes[i].key.Some? {
          drops := drops + [changes[i].key.value];
        }
      }
      assert changes[..|changes|] == changes;
    }
  }

  class Database {
    var rows: map<Key, Row>
    var packs: seq<Pack>

    function Now(): Db
      reads this
    {
      Db(rows, packs)
    }

    constructor (db: Db)
      ensures Now() == db
    {
      rows, packs := db.rows, db.packs;
    }

    /** The writer's flush: one call, one transaction. */
    method ApplyContentPack(s: Staged)
      modifies this
      ensures Now() == Commit(s, old(Now()))
    {
      for i := 0 to |s.puts|
        invariant packs == old(packs) && rows == PutAll(s.puts[..i], old(rows))
      {
        assert s.puts[..i + 1][..i] == s.puts[..i] && s.puts[..i + 1][i] == s.puts[i];
        rows := rows[KeyOf(s.puts[i]) := WriteRow(s.puts[i])];
      }
      assert s.puts[..|s.puts|] == s.puts;
      ghost var put := rows;
      for i := 0 to |s.drops|
        invariant packs == old(packs) && rows == put - (set k | k in s.drops[..i])
      {
        assert s.drops[..i + 1] == s.drops[..i] + [s.drops[i]];
        rows := rows - {s.drops[i]};
      }
      assert s.drops[..|s.drops|] == s.drops;
      if s.removedPack != "" {
        packs := Filter(OtherName(s.removedPack), packs);
      } else if s.pack.Some? {
        packs := Filter(OtherName(s.pack.value.name), packs) + [s.pack.value];
      }
    }
  }

  /** `apply_plan`: stage everything, then flush once; a refused plan never reaches the database. */
  method ApplyPlan(plan: Plan, db: Database) returns (ok: bool)
    modifies db
    ensures ok <==> Apply(plan, old(db.Now())).Ok?
    ensures ok ==> Apply(plan, old(db.Now())) == Ok(db.Now())
    ensures !ok ==> db.Now() == old(db.Now())
  {
    if plan.problems != [] || Conflicted(plan.changes) {
      return false;
    }
    var w := new PackWriter();
    w.StagePuts(plan);
    w.StageDrops(plan.changes);
    assert w.puts == Stage(plan).puts && w.drops == Stage(plan).drops;
    if VerbOf(plan.changes, None) == Some(Delete) {
      w.removedPack := plan.pack.name;
    } else {
      w.pack := Some(plan.pack);
    }
    db.ApplyContentPack(w.Buffer());
    return true;
  }

  lemma DropStep(cs: seq<Change>, i: nat)
    requires i < |cs|
    ensures Map(DropKey, Filter(IsDrop(), cs[..i + 1]))
         == Map(DropKey, Filter(IsDrop(), cs[..i])) + (if IsDrop()(cs[i]) then [DropKey(cs[i])] else [])
  {
    assert cs[..i + 1] == cs[..i] + [cs[i]];
    FilterAppend(IsDrop(), cs[..i], [cs[i]]);
    assert Filter(IsDrop(), [cs[i]]) == (if IsDrop()(cs[i]) then [cs[i]] else []) + Filter(IsDrop(), [cs[i]][1..]);
  }

  // ------------------------------------------------------- what one accepted plan does

  lemma {:induction false} VerbOfFacts(cs: seq<Change>, key: Option<Key>, v: Verb)
    requires exists c :: c in cs && c.key == key
    requires forall c :: c in cs && c.key == key ==> c.verb == v
    ensures VerbOf(cs, key) == Some(v)
  {
    var k := |cs| - 1;
    assert cs == cs[..k] + [cs[k]];
    assert cs[k] in cs;
    if cs[k].key != key { VerbOfFacts(cs[..k], key, v); }
  }

  lemma MapIn(f: Entry -> Change, s: seq<Entry>)
    ensures forall c :: c in Map(f, s) <==> exists e :: e in s && f(e) == c
  {
    forall e | e in s ensures f(e) in Map(f, s) {
      var i :| 0 <= i < |s| && s[i] == e;
      assert Map(f, s)[i] == f(e);
    }
  }

  lemma EntryByKey(p: Pack, e: Entry, f: Entry)
    requires ValidPack(p) && e in p.entries && f in p.entries && KeyOf(e) == KeyOf(f)
    ensures e == f
  {
    var i :| 0 <= i < |p.entries| && p.entries[i] == e;
    var j :| 0 <= j < |p.entries| && p.entries[j] == f;
  }

  /** The changes of an install plan, by kind. */
  lemma InstallChanges(pack: Pack, db: Db, overwrite: bool, problems: seq<string>, c: Change)
    ensures var plan := PlanInstall(pack, db, overwrite, problems);
            c in plan.changes <==>
              (|| c == Change(None, if Installed(db.packs, pack.name).Some? then Update else Create)
               || (exists e :: e in pack.entries && EntryChange(db, pack, overwrite, e) == c)
               || (Installed(db.packs, pack.name).Some?
                   && exists e :: e in Installed(db.packs, pack.name).value.entries
                         && !Has(pack, KeyOf(e)) && DropChange(e) == c))
  {
    MapIn((e: Entry) => EntryChange(db, pack, overwrite, e), pack.entries);
    var previous := Installed(db.packs, pack.name);
    if previous.Some? {
      FilterIn(KeptBy(pack), previous.value.entries);
      MapIn(DropChange, Filter(KeptBy(pack), previous.value.entries));
    }
  }

  lemma InstallVerb(pack: Pack, db: Db, overwrite: bool, problems: seq<string>, e: Entry)
    requires ValidPack(pack) && e in pack.entries
    ensures VerbOf(PlanInstall(pack, db, overwrite, problems).changes, Some(KeyOf(e)))
         == Some(EntryVerb(db, pack, overwrite, e))
  {
    var cs := PlanInstall(pack, db, overwrite, problems).changes;
    InstallChanges(pack, db, overwrite, problems, EntryChange(db, pack, overwrite, e));
    assert Has(pack, KeyOf(e));
    forall c | c in cs && c.key == Some(KeyOf(e)) ensures c.verb == EntryVerb(db, pack, overwrite, e) {
      InstallChanges(pack, db, overwrite, problems, c);
      if f :| f in pack.entries && EntryChange(db, pack, overwrite, f) == c {
        EntryByKey(pack, e, f);
      }
    }
    VerbOfFacts(cs, Some(KeyOf(e)), EntryVerb(db, pack, overwrite, e));
  }

  lemma InstallPackVerb(pack: Pack, db: Db, overwrite: bool, problems: seq<string>)
    ensures VerbOf(PlanInstall(pack, db, overwrite, problems).changes, None) != Some(Delete)
    ensures VerbOf(PlanInstall(pack, db, overwrite, problems).changes, None).Some?
  {
    var cs := PlanInstall(pack, db, overwrite, problems).changes;
    var v := if Installed(db.packs, pack.name).Some? then Update else Create;
    InstallChanges(pack, db, overwrite, problems, Change(None, v));
    forall c | c in cs && c.key == None ensures c.verb == v {
      InstallChanges(pack, db, overwrite, problems, c);
    }
    VerbOfFacts(cs, None, v);
  }

  /** The keys a plan deletes. */
  lemma DroppedKeys(cs: seq<Change>, k: Key)
    ensures k in Map(DropKey, Filter(IsDrop(), cs)) <==> Change(Some(k), Delete) in cs
  {
    var f := Filter(IsDrop(), cs);
    FilterIn(IsDrop(), cs);
    if k in Map(DropKey, f) {
      var i :| 0 <= i < |f| && Map(DropKey, f)[i] == k;
      assert f[i] in f;
      assert f[i] == Change(Some(k), Delete);
    }
    if Change(Some(k), Delete) in cs {
      assert Change(Some(k), Delete) in f;
      var i :| 0 <= i < |f| && f[i] == Change(Some(k), Delete);
      assert Map(DropKey, f)[i] == k;
    }
  }

  /** The deletions listed for some entries are those of their keys. */
  lemma DropListed(es: seq<Entry>, keep: Entry -> bool, k: Key)
    ensures Change(Some(k), Delete) in Map(DropChange, Filter(keep, es))
       <==> exists e :: e in es && keep(e) && KeyOf(e) == k
  {
    FilterIn(keep, es);
    MapIn(DropChange, Filter(keep, es));
    if e :| e in es && keep(e) && KeyOf(e) == k {
      assert DropChange(e) == Change(Some(k), Delete);
    }
  }

  lemma InstallDrops(pack: Pack, db: Db, overwrite: bool, problems: seq<string>, k: Key)
    ensures k in Stage(PlanInstall(pack, db, overwrite, problems)).drops
       <==> !Has(pack, k) && Installed(db.packs, pack.name).Some? && Has(Installed(db.packs, pack.name).value, k)
  {
    var d := Change(Some(k), Delete);
    var entries := Map((e: Entry) => EntryChange(db, pack, overwrite, e), pack.entries);
    DroppedKeys(PlanInstall(pack, db, overwrite, problems).changes, k);
    assert d !in entries;
    var previous := Installed(db.packs, pack.name);
    if previous.Some? {
      DropListed(previous.value.entries, KeptBy(pack), k);
    }
  }

  /** Where an entry of that key is put it lands, all such entries agreeing; elsewhere nothing moves. */
  lemma {:induction false} PutAllAt(es: seq<Entry>, rows: map<Key, Row>, k: Key, r: Row)
    requires forall e :: e in es && KeyOf(e) == k ==> WriteRow(e) == r
    ensures var t := PutAll(es, rows);
            if exists e :: e in es && KeyOf(e) == k then k in t && t[k] == r
            else (k in t <==> k in rows) && (k in t ==> t[k] == rows[k])
  {
    if es != [] {
      var n := |es| - 1;
      assert es == es[..n] + [es[n]];
      PutAllAt(es[..n], rows, k, r);
    }
  }

  /** The packs after an accepted install. */
  function WithPack(packs: seq<Pack>, pack: Pack): seq<Pack> {
    Filter(OtherName(pack.name), packs) + [pack]
  }

  /**
   * What an accepted install leaves of one object of the pack:
   * the old row if it read as unchanged, else the document's.
   */
  lemma InstalledEntry(pack: Pack, db: Db, overwrite: bool, problems: seq<string>, e: Entry)
    requires ValidPack(pack) && e in pack.entries
    requires Apply(PlanInstall(pack, db, overwrite, problems), db).Ok?
    ensures var after, k := Apply(PlanInstall(pack, db, overwrite, problems), db).value, KeyOf(e);
            && k in after.rows
            && after.rows[k] == (if k in db.rows && Same(e, db.rows[k]) then db.rows[k] else WriteRow(e))
    ensures KeyOf(e) in db.rows && !overwrite ==> Owner(db.packs, KeyOf(e)) == pack.name
  {
    var plan, k := PlanInstall(pack, db, overwrite, problems), KeyOf(e);
    InstallDrops(pack, db, overwrite, problems, k);
    AcceptedVerb(pack, db, overwrite, problems, e);
    assert Has(pack, k);
    CommittedRow(plan, db, overwrite, e);
  }

  /** What a committed plan leaves of an object it lists once and does not drop. */
  lemma CommittedRow(plan: Plan, db: Db, overwrite: bool, e: Entry)
    requires ValidPack(plan.pack) && e in plan.pack.entries && KeyOf(e) !in Stage(plan).drops && Apply(plan, db).Ok?
    requires EntryVerb(db, plan.pack, overwrite, e) != Conflict
    requires VerbOf(plan.changes, Some(KeyOf(e))) == Some(EntryVerb(db, plan.pack, overwrite, e))
    ensures var t, k := Apply(plan, db).value.rows, KeyOf(e);
            k in t && t[k] == (if k in db.rows && Same(e, db.rows[k]) then db.rows[k] else WriteRow(e))
    ensures KeyOf(e) in db.rows && !overwrite ==> Owner(db.packs, KeyOf(e)) == plan.pack.name
  {
    StagedRow(plan, db.rows, e);
  }

  /** In an accepted plan an object is new, or the pack's own, or overwriting was asked for. */
  lemma AcceptedVerb(pack: Pack, db: Db, overwrite: bool, problems: seq<string>, e: Entry)
    requires ValidPack(pack) && e in pack.entries
    requires Apply(PlanInstall(pack, db, overwrite, problems), db).Ok?
    ensures var verb := EntryVerb(db, pack, overwrite, e);
            && verb != Conflict
            && VerbOf(PlanInstall(pack, db, overwrite, problems).changes, Some(KeyOf(e))) == Some(verb)
  {
    InstallVerb(pack, db, overwrite, problems, e);
    InstallChanges(pack, db, overwrite, problems, EntryChange(db, pack, overwrite, e));
  }

  /** Staging puts an object of the pack exactly when its verb says so. */
  lemma StagedRow(plan: Plan, rows: map<Key, Row>, e: Entry)
    requires ValidPack(plan.pack) && e in plan.pack.entries
    ensures var t, k := PutAll(Stage(plan).puts, rows), KeyOf(e);
            if ToPut(plan)(e) then k in t && t[k] == WriteRow(e)
            else (k in t <==> k in rows) && (k in t ==> t[k] == rows[k])
  {
    var s, k := Stage(plan), KeyOf(e);
    FilterIn(ToPut(plan), plan.pack.entries);
    forall f | f in s.puts && KeyOf(f) == k ensures f == e { EntryByKey(plan.pack, e, f); }
    PutAllAt(s.puts, rows, k, WriteRow(e));
    assert e in s.puts <==> ToPut(plan)(e);
  }

  /** Away from the pack's objects an accepted install only deletes what the previous version had. */
  lemma InstalledElsewhere(pack: Pack, db: Db, overwrite: bool, problems: seq<string>, k: Key)
    requires !Has(pack, k)
    requires Apply(PlanInstall(pack, db, overwrite, problems), db).Ok?
    ensures var after := Apply(PlanInstall(pack, db, overwrite, problems), db).value;
            if Installed(db.packs, pack.name).Some? && Has(Installed(db.packs, pack.name).value, k)
            then k !in after.rows
            else (k in after.rows <==> k in db.rows) && (k in db.rows ==> after.rows[k] == db.rows[k])
  {
    var plan := PlanInstall(pack, db, overwrite, problems);
    var s := Stage(plan);
    InstallDrops(pack, db, overwrite, problems, k);
    FilterIn(ToPut(plan), pack.entries);
    forall f | f in s.puts ensures KeyOf(f) != k { assert f in pack.entries; }
    PutAllAt(s.puts, db.rows, k, RuleRow("", "", false));
  }

  lemma InstalledPacks(pack: Pack, db: Db, overwrite: bool, problems: seq<string>)
    requires Apply(PlanInstall(pack, db, overwrite, problems), db).Ok?
    ensures Apply(PlanInstall(pack, db, overwrite, problems), db).value.packs == WithPack(db.packs, pack)
  {
    InstallPackVerb(pack, db, overwrite, problems);
  }

  /** An accepted removal, object by object. */
  lemma UninstalledRows(name: string, db: Db, k: Key)
    requires PlanUninstall(name, db).Some? && name != ""
    ensures var p := Installed(db.packs, name).value; var plan := PlanUninstall(name, db).value;
            && Apply(plan, db).Ok?
            && Apply(plan, db).value.packs == Filter(OtherName(p.name), db.packs)
            && (if Has(p, k) && (Owner(db.packs, k) == "" || Owner(db.packs, k) == name)
                then k !in Apply(plan, db).value.rows
                else (k in Apply(plan, db).value.rows <==> k in db.rows)
                     && (k in db.rows ==> Apply(plan, db).value.rows[k] == db.rows[k]))
  {
    var p, plan := Installed(db.packs, name).value, PlanUninstall(name, db).value;
    InstalledFacts(db.packs, name);
    UninstallChanges(name, db);
    VerbOfFacts(plan.changes, None, Delete);
    forall e | e in p.entries ensures !ToPut(plan)(e) {
      NoVerb(plan.changes, Some(KeyOf(e)));
    }
    FilterNone(ToPut(plan), p.entries);
    DroppedKeys(plan.changes, k);
    DropListed(p.entries, OwnedBy(db, name), k);
  }

  lemma UninstallChanges(name: string, db: Db)
    requires PlanUninstall(name, db).Some?
    ensures var cs := PlanUninstall(name, db).value.changes;
            Change(None, Delete) in cs && forall c :: c in cs ==> c.verb == Delete
  {
    var p := Installed(db.packs, name).value;
    MapIn(DropChange, Filter(OwnedBy(db, name), p.entries));
  }

  lemma {:induction false} NoVerb(cs: seq<Change>, key: Option<Key>)
    requires forall c :: c in cs ==> c.verb == Delete
    ensures VerbOf(cs, key) != Some(Create) && VerbOf(cs, key) != Some(Update)
  {
    if cs != [] {
      assert cs[|cs| - 1] in cs;
      NoVerb(cs[..|cs| - 1], key);
    }
  }

  lemma {:induction false} InstalledFacts(packs: seq<Pack>, name: string)
    ensures Installed(packs, name).Some?
            ==> Installed(packs, name).value in packs && Installed(packs, name).value.name == name
    ensures Installed(packs, name).None? ==> forall p :: p in packs ==> p.name != name
  {
    if packs != [] {
      var n := |packs| - 1;
      assert packs == packs[..n] + [packs[n]];
      InstalledFacts(packs[..n], name);
    }
  }

  // ------------------------------------------------------- the lifecycle invariant

  /** The stored row is what the document asks for; for a rule that is its YAML text. */
  predicate Settled(e: Entry, r: Row) {
    match e
    case ParserEntry(_, _, _, _, _, _, _, _, _, _) => r == WriteRow(e)
    case RuleEntry(_, _, yaml, _) => r.RuleRow? && r.yaml == yaml
  }

  /** Well-formed documents under distinct names, no two listing the same object. */
  ghost predicate Disjoint(packs: seq<Pack>) {
    && (forall p :: p in packs ==> ValidPack(p))
    && (forall p, q :: p in packs && q in packs && p.name == q.name ==> p == q)
    && (forall p, q, k :: p in packs && q in packs && Has(p, k) && Has(q, k) ==> p == q)
  }

  /** Every object of every installed pack is stored as its document says, and was nobody's by hand. */
  ghost predicate Stored(hand: map<Key, Row>, db: Db) {
    forall p, e :: p in db.packs && e in p.entries ==>
      KeyOf(e) in db.rows && KeyOf(e) !in hand && Settled(e, db.rows[KeyOf(e)])
  }

  ghost predicate HandKept(hand: map<Key, Row>, db: Db) {
    forall k :: k in hand ==> k in db.rows && db.rows[k] == hand[k]
  }

  /** Every row is hand-authored or some installed pack's. */
  ghost predicate Accounted(hand: map<Key, Row>, db: Db) {
    forall k :: k in db.rows ==> k in hand || exists p :: p in db.packs && Has(p, k)
  }

  /**
   * Installed packs own disjoint objects, each stored as its document says; hand-authored rows are
   * as they were; and there are no other rows.
   */
  ghost predicate Sound(hand: map<Key, Row>, db: Db) {
    Disjoint(db.packs) && Stored(hand, db) && HandKept(hand, db) && Accounted(hand, db)
  }

  lemma {:induction false} OwnerHas(packs: seq<Pack>, k: Key)
    ensures Owner(packs, k) != "" ==> exists p :: p in packs && Has(p, k) && p.name == Owner(packs, k)
    ensures Owner(packs, k) == "" ==>
              forall p :: p in packs && Has(p, k) ==> exists q :: q in packs && Has(q, k) && q.name == ""
  {
    if packs != [] {
      var n := |packs| - 1;
      assert packs == packs[..n] + [packs[n]];
      assert packs[n] in packs;
      if !Has(packs[n], k) { OwnerHas(packs[..n], k); }
    }
  }

  /** The installed pack of that name lists the object. */
  ghost predicate HeldBy(packs: seq<Pack>, name: string, k: Key) {
    Installed(packs, name).Some? && Has(Installed(packs, name).value, k)
  }

  /** Where no two packs list an object, the recorded owner is the pack that lists it, if any. */
  lemma OwnerIsHolder(packs: seq<Pack>, k: Key, name: string)
    requires Disjoint(packs) && name != ""
    ensures Owner(packs, k) == name <==> HeldBy(packs, name, k)
    ensures Owner(packs, k) == "" ==> forall p :: p in packs ==> !Has(p, k)
  {
    OwnerHas(packs, k);
    InstalledFacts(packs, name);
  }

  /** A row that already reads as the new entry is the row the new entry would write. */
  lemma SameIsSettled(before: Entry, e: Entry, r: Row)
    requires Settled(before, r) && ValidEntry(before) && ValidEntry(e) && Same(e, r)
    ensures Settled(e, r)
  {
    if e.ParserEntry? {
      assert r == WriteRow(before);
      assert EntryFromRow(e.id, r).fieldMap == before.fieldMap;
    }
  }

  /** The effect of an accepted install without overwrite. */
  ghost predicate Installs(db: Db, pack: Pack, after: Db) {
    && after.packs == WithPack(db.packs, pack)
    && (forall e :: e in pack.entries ==> EntryInstalled(db, pack, e, after))
    && (forall k :: !Has(pack, k) ==> ElsewhereKept(db, pack.name, k, after))
  }

  /** An object of the pack: formerly absent or the pack's own; stands if it read as unchanged, else is written. */
  ghost predicate EntryInstalled(db: Db, pack: Pack, e: Entry, after: Db) {
    var k := KeyOf(e);
    && (k in db.rows ==> Owner(db.packs, k) == pack.name)
    && k in after.rows
    && after.rows[k] == (if k in db.rows && Same(e, db.rows[k]) then db.rows[k] else WriteRow(e))
  }

  /** Anything else: gone if the name's earlier version listed it, otherwise as it was. */
  ghost predicate ElsewhereKept(db: Db, name: string, k: Key, after: Db) {
    if HeldBy(db.packs, name, k) then k !in after.rows
    else (k in after.rows <==> k in db.rows) && (k in db.rows ==> after.rows[k] == db.rows[k])
  }

  lemma AcceptedInstalls(db: Db, pack: Pack, problems: seq<string>)
    requires ValidPack(pack) && Apply(PlanInstall(pack, db, false, problems), db).Ok?
    ensures Installs(db, pack, Apply(PlanInstall(pack, db, false, problems), db).value)
  {
    var after := Apply(PlanInstall(pack, db, false, problems), db).value;
    InstalledPacks(pack, db, false, problems);
    forall e | e in pack.entries ensures EntryInstalled(db, pack, e, after) {
      InstalledEntry(pack, db, false, problems, e);
    }
    forall k | !Has(pack, k) ensures ElsewhereKept(db, pack.name, k, after) {
      InstalledElsewhere(pack, db, false, problems, k);
    }
  }

  lemma KeptPacks(packs: seq<Pack>, name: string)
    ensures forall p :: p in Filter(OtherName(name), packs) <==> p in packs && p.name != name
  {
    FilterIn(OtherName(name), packs);
  }

  /** An object of the new version is listed by no other pack and was not authored by hand. */
  lemma EntryIsFree(hand: map<Key, Row>, db: Db, pack: Pack, after: Db, k: Key)
    requires Sound(hand, db) && ValidPack(pack) && Installs(db, pack, after) && Has(pack, k)
    ensures k !in hand
    ensures forall p :: p in db.packs && Has(p, k) ==> p.name == pack.name
  {
    var e :| e in pack.entries && KeyOf(e) == k;
    assert EntryInstalled(db, pack, e, after);
    OwnerIsHolder(db.packs, k, pack.name);
    InstalledFacts(db.packs, pack.name);
    forall p | p in db.packs && Has(p, k) ensures k in db.rows && k !in hand {
      var f :| f in p.entries && KeyOf(f) == k;
    }
  }

  /** A row of some other pack, or of nobody, stays as it was. */
  lemma OthersStay(hand: map<Key, Row>, db: Db, pack: Pack, after: Db, k: Key)
    requires Sound(hand, db) && ValidPack(pack) && Installs(db, pack, after)
    requires k in hand || exists p :: p in db.packs && Has(p, k) && p.name != pack.name
    ensures k in db.rows && k in after.rows && after.rows[k] == db.rows[k]
  {
    if Has(pack, k) { EntryIsFree(hand, db, pack, after, k); }
    InstalledFacts(db.packs, pack.name);
    ListedIsStored(hand, db, k);
    assert ElsewhereKept(db, pack.name, k, after);
  }

  lemma ListedIsStored(hand: map<Key, Row>, db: Db, k: Key)
    requires Sound(hand, db)
    ensures forall p :: p in db.packs && Has(p, k) ==> k in db.rows && k !in hand
  {
    forall p | p in db.packs && Has(p, k) ensures k in db.rows && k !in hand {
      var f :| f in p.entries && KeyOf(f) == k;
    }
  }

  lemma InstallStores(hand: map<Key, Row>, db: Db, pack: Pack, after: Db, e: Entry)
    requires Sound(hand, db) && ValidPack(pack) && Installs(db, pack, after) && e in pack.entries
    ensures KeyOf(e) in after.rows && KeyOf(e) !in hand && Settled(e, after.rows[KeyOf(e)])
  {
    var k := KeyOf(e);
    EntryIsFree(hand, db, pack, after, k);
    assert EntryInstalled(db, pack, e, after);
    if k in db.rows && Same(e, db.rows[k]) {
      OwnerIsHolder(db.packs, k, pack.name);
      InstalledFacts(db.packs, pack.name);
      var f :| f in Installed(db.packs, pack.name).value.entries && KeyOf(f) == k;
      SameIsSettled(f, e, db.rows[k]);
    }
  }

  lemma InstallKeepsDisjoint(hand: map<Key, Row>, db: Db, pack: Pack, after: Db)
    requires Sound(hand, db) && ValidPack(pack) && Installs(db, pack, after)
    ensures Disjoint(after.packs)
  {
    KeptPacks(db.packs, pack.name);
    forall p, k | p in db.packs && p.name != pack.name && Has(p, k) ensures !Has(pack, k) {
      if Has(pack, k) { EntryIsFree(hand, db, pack, after, k); }
    }
  }

  lemma InstallKeepsStored(hand: map<Key, Row>, db: Db, pack: Pack, after: Db)
    requires Sound(hand, db) && ValidPack(pack) && Installs(db, pack, after)
    ensures Stored(hand, after)
  {
    KeptPacks(db.packs, pack.name);
    forall p, e | p in after.packs && e in p.entries
      ensures KeyOf(e) in after.rows && KeyOf(e) !in hand && Settled(e, after.rows[KeyOf(e)])
    {
      if p == pack {
        InstallStores(hand, db, pack, after, e);
      } else {
        assert Has(p, KeyOf(e));
        OthersStay(hand, db, pack, after, KeyOf(e));
      }
    }
  }

  lemma InstallKeepsAccounted(hand: map<Key, Row>, db: Db, pack: Pack, after: Db)
    requires Sound(hand, db) && ValidPack(pack) && Installs(db, pack, after)
    ensures Accounted(hand, after)
  {
    KeptPacks(db.packs, pack.name);
    InstalledFacts(db.packs, pack.name);
    forall k | k in after.rows && k !in hand ensures exists p :: p in after.packs && Has(p, k) {
      if Has(pack, k) {
        assert pack in after.packs;
      } else {
        assert ElsewhereKept(db, pack.name, k, after);
        var p :| p in db.packs && Has(p, k);
        assert p in after.packs;
      }
    }
  }

  /** An accepted install or upgrade keeps the invariant. */
  lemma InstallKeepsSound(hand: map<Key, Row>, db: Db, pack: Pack, problems: seq<string>)
    requires Sound(hand, db) && ValidPack(pack)
    requires Apply(PlanInstall(pack, db, false, problems), db).Ok?
    ensures Sound(hand, Apply(PlanInstall(pack, db, false, problems), db).value)
  {
    var after := Apply(PlanInstall(pack, db, false, problems), db).value;
    AcceptedInstalls(db, pack, problems);
    InstallKeepsDisjoint(hand, db, pack, after);
    InstallKeepsStored(hand, db, pack, after);
    InstallKeepsAccounted(hand, db, pack, after);
    forall k | k in hand ensures k in after.rows && after.rows[k] == hand[k] {
      OthersStay(hand, db, pack, after, k);
    }
  }

  /** The effect of a removal where packs are disjoint: its objects go, everything else stays. */
  ghost predicate Uninstalls(db: Db, name: string, after: Db) {
    && after.packs == Filter(OtherName(name), db.packs)
    && (forall k :: ElsewhereKept(db, name, k, after))
  }

  lemma AcceptedUninstalls(db: Db, name: string)
    requires Disjoint(db.packs) && PlanUninstall(name, db).Some?
    ensures Apply(PlanUninstall(name, db).value, db).Ok?
    ensures Uninstalls(db, name, Apply(PlanUninstall(name, db).value, db).value)
  {
    InstalledFacts(db.packs, name);
    UninstalledRows(name, db, (Parser, ""));
    var after := Apply(PlanUninstall(name, db).value, db).value;
    forall k ensures ElsewhereKept(db, name, k, after) {
      UninstalledRows(name, db, k);
      OwnerIsHolder(db.packs, k, name);
    }
  }

  /** So does an uninstall, which is always accepted. */
  lemma UninstallKeepsSound(hand: map<Key, Row>, db: Db, name: string)
    requires Sound(hand, db) && PlanUninstall(name, db).Some?
    ensures Apply(PlanUninstall(name, db).value, db).Ok?
    ensures Sound(hand, Apply(PlanUninstall(name, db).value, db).value)
  {
    AcceptedUninstalls(db, name);
    RemovalKeepsSound(hand, db, name, Apply(PlanUninstall(name, db).value, db).value);
  }

  lemma RemovalKeepsSound(hand: map<Key, Row>, db: Db, name: string, after: Db)
    requires Sound(hand, db) && Uninstalls(db, name, after)
    ensures Sound(hand, after)
  {
    KeptPacks(db.packs, name);
    InstalledFacts(db.packs, name);
    assert Disjoint(after.packs);
    forall k ensures k in hand ==> k in after.rows && after.rows[k] == hand[k] {
      ListedIsStored(hand, db, k);
      assert ElsewhereKept(db, name, k, after);
    }
    RemovalKeepsStored(hand, db, name, after);
    forall k | k in after.rows && k !in hand ensures exists p :: p in after.packs && Has(p, k) {
      assert ElsewhereKept(db, name, k, after);
      var p :| p in db.packs && Has(p, k);
      assert p in after.packs;
    }
  }

  lemma RemovalKeepsStored(hand: map<Key, Row>, db: Db, name: string, after: Db)
    requires Sound(hand, db) && Uninstalls(db, name, after)
    ensures Stored(hand, after)
  {
    KeptPacks(db.packs, name);
    InstalledFacts(db.packs, name);
    forall p, e | p in after.packs && e in p.entries
      ensures KeyOf(e) in after.rows && KeyOf(e) !in hand && Settled(e, after.rows[KeyOf(e)])
    {
      assert Has(p, KeyOf(e));
      assert ElsewhereKept(db, name, KeyOf(e), after);
    }
  }

  // ------------------------------------------------------- installing with `overwrite`

  lemma {:induction false} SameChanges(f: Entry -> Change, g: Entry -> Change, es: seq<Entry>)
    requires forall e :: e in es ==> f(e) == g(e)
    ensures Map(f, es) == Map(g, es)
  {
    if es != [] { SameChanges(f, g, es[1..]); }
  }

  /** Where nothing conflicts, asking for `overwrite` plans the same. */
  lemma OverwritePlansTheSame(pack: Pack, db: Db, problems: seq<string>)
    requires !Conflicted(PlanInstall(pack, db, false, problems).changes)
    ensures PlanInstall(pack, db, true, problems) == PlanInstall(pack, db, false, problems)
  {
    forall e | e in pack.entries ensures EntryChange(db, pack, true, e) == EntryChange(db, pack, false, e) {
      InstallChanges(pack, db, false, problems, EntryChange(db, pack, false, e));
    }
    SameChanges((e: Entry) => EntryChange(db, pack, true, e),
                (e: Entry) => EntryChange(db, pack, false, e), pack.entries);
  }

  /** With `overwrite` only a problem refuses a plan. */
  lemma OverwriteIsAccepted(pack: Pack, db: Db, problems: seq<string>)
    ensures Apply(PlanInstall(pack, db, true, problems), db).Ok? <==> problems == []
  {
    var cs := PlanInstall(pack, db, true, problems).changes;
    forall c | c in cs ensures c.verb != Conflict { InstallChanges(pack, db, true, problems, c); }
  }

  /** A conflict is an object some other pack lists or some hand wrote. */
  lemma ConflictMeansTaken(hand: map<Key, Row>, db: Db, pack: Pack, e: Entry)
    requires Sound(hand, db) && ValidPack(pack) && e in pack.entries && EntryVerb(db, pack, false, e) == Conflict
    ensures KeyOf(e) in hand || exists p :: p in db.packs && Has(p, KeyOf(e)) && p.name != pack.name
  {
    if KeyOf(e) !in hand {
      var p :| p in db.packs && Has(p, KeyOf(e));
      InstalledFacts(db.packs, pack.name);
      OwnerIsHolder(db.packs, KeyOf(e), pack.name);
    }
  }

  /** Taking over somebody's object breaks the invariant. */
  lemma TakingOverBreaksSound(hand: map<Key, Row>, db: Db, pack: Pack, after: Db, e: Entry)
    requires Sound(hand, db) && ValidPack(pack) && e in pack.entries && after.packs == WithPack(db.packs, pack)
    requires KeyOf(e) in hand || exists p :: p in db.packs && Has(p, KeyOf(e)) && p.name != pack.name
    ensures !Sound(hand, after)
  {
    KeptPacks(db.packs, pack.name);
    assert pack in after.packs && Has(pack, KeyOf(e));
    if KeyOf(e) !in hand {
      var p :| p in db.packs && Has(p, KeyOf(e)) && p.name != pack.name;
      assert p in after.packs;
    }
  }

  /**
   * Importing with `overwrite` keeps the invariant exactly when it was not needed: when the dry run
   * without it has no conflict.
   */
  lemma OverwriteKeepsSound(hand: map<Key, Row>, db: Db, pack: Pack)
    requires Sound(hand, db) && ValidPack(pack)
    ensures Apply(PlanInstall(pack, db, true, []), db).Ok?
    ensures Sound(hand, Apply(PlanInstall(pack, db, true, []), db).value)
         <==> Apply(PlanInstall(pack, db, false, []), db).Ok?
  {
    OverwriteIsAccepted(pack, db, []);
    var dry := PlanInstall(pack, db, false, []).changes;
    if Conflicted(dry) {
      var c :| c in dry && c.verb == Conflict;
      InstallChanges(pack, db, false, [], c);
      var e :| e in pack.entries && EntryChange(db, pack, false, e) == c;
      ConflictMeansTaken(hand, db, pack, e);
      InstalledPacks(pack, db, true, []);
      TakingOverBreaksSound(hand, db, pack, Apply(PlanInstall(pack, db, true, []), db).value, e);
    } else {
      OverwritePlansTheSame(pack, db, []);
      InstallKeepsSound(hand, db, pack, []);
    }
  }

  /** An install deletes a row that some other pack owns. */
  ghost predicate DeletesAnothers(db: Db, pack: Pack, after: Db, k: Key) {
    k in db.rows && k !in after.rows && Owner(db.packs, k) != "" && Owner(db.packs, k) != pack.name
  }

  /** The previous version lists the object, this one does not, and by now it is some other pack's. */
  ghost predicate DropsAnothers(db: Db, pack: Pack, k: Key) {
    && k in db.rows && HeldBy(db.packs, pack.name, k) && !Has(pack, k)
    && Owner(db.packs, k) != "" && Owner(db.packs, k) != pack.name
  }

  /** The deletions of an upgrade do not ask for the owner: exactly when they reach somebody else's row. */
  lemma UpgradeDeletesAnothers(pack: Pack, db: Db, overwrite: bool, problems: seq<string>, k: Key)
    requires ValidPack(pack) && Apply(PlanInstall(pack, db, overwrite, problems), db).Ok?
    ensures DeletesAnothers(db, pack, Apply(PlanInstall(pack, db, overwrite, problems), db).value, k)
         <==> DropsAnothers(db, pack, k)
  {
    if Has(pack, k) {
      var e :| e in pack.entries && KeyOf(e) == k;
      InstalledEntry(pack, db, overwrite, problems, e);
    } else {
      InstalledElsewhere(pack, db, overwrite, problems, k);
    }
  }

  /** While packs are disjoint that never happens. */
  lemma DisjointDropsOwn(db: Db, pack: Pack, k: Key)
    requires Disjoint(db.packs) && pack.name != ""
    ensures !DropsAnothers(db, pack, k)
  {
    OwnerIsHolder(db.packs, k, pack.name);
  }

  // ------------------------------------------------------- histories

  /** What a user may do; `problems` are the compatibility findings of that import. */
  datatype Op = Install(pack: Pack, overwrite: bool, problems: seq<string>) | Uninstall(name: string)

  /** One operation; a refused one leaves everything as it was. */
  function Step(op: Op, db: Db): Db {
    match op
    case Install(pack, overwrite, problems) =>
      (match Apply(PlanInstall(pack, db, overwrite, problems), db) case Ok(after) => after case Err(_) => db)
    case Uninstall(name) =>
      (match PlanUninstall(name, db)
       case None => db
       case Some(plan) => match Apply(plan, db) case Ok(after) => after case Err(_) => db)
  }

  function Run(ops: seq<Op>, db: Db): Db {
    if ops == [] then db else Step(ops[|ops| - 1], Run(ops[..|ops| - 1], db))
  }

  /**
   * The operation overwrites nothing: what it is asked to overwrite
   * would have been accepted without, or is refused anyway.
   */
  predicate Careful(op: Op, db: Db) {
    op.Install? && op.overwrite && op.problems == [] ==> Apply(PlanInstall(op.pack, db, false, []), db).Ok?
  }

  /** One operation keeps the invariant exactly when it is careful. */
  lemma StepKeepsSound(hand: map<Key, Row>, db: Db, op: Op)
    requires Sound(hand, db) && (op.Install? ==> ValidPack(op.pack))
    ensures Sound(hand, Step(op, db)) <==> Careful(op, db)
  {
    match op {
      case Install(pack, overwrite, problems) =>
        if overwrite {
          OverwriteIsAccepted(pack, db, problems);
          if problems == [] { OverwriteKeepsSound(hand, db, pack); }
        } else if Apply(PlanInstall(pack, db, false, problems), db).Ok? {
          InstallKeepsSound(hand, db, pack, problems);
        }
      case Uninstall(name) =>
        if PlanUninstall(name, db).Some? { UninstallKeepsSound(hand, db, name); }
    }
  }

  /** Where a history stands after its first `n` operations. */
  function After(hand: map<Key, Row>, ops: seq<Op>, n: nat): Db
    requires n <= |ops|
  {
    Run(ops[..n], Db(hand, []))
  }

  lemma AfterStep(hand: map<Key, Row>, ops: seq<Op>, n: nat)
    requires n < |ops|
    ensures After(hand, ops, n + 1) == Step(ops[n], After(hand, ops, n))
  {
    assert ops[..n + 1][..n] == ops[..n] && ops[..n + 1][n] == ops[n];
  }

  lemma {:induction false} CarefulSoFar(hand: map<Key, Row>, ops: seq<Op>, n: nat)
    requires n <= |ops| && forall op :: op in ops && op.Install? ==> ValidPack(op.pack)
    requires forall i :: 0 <= i < n ==> Careful(ops[i], After(hand, ops, i))
    ensures Sound(hand, After(hand, ops, n))
  {
    if n > 0 {
      CarefulSoFar(hand, ops, n - 1);
      AfterStep(hand, ops, n - 1);
      StepKeepsSound(hand, After(hand, ops, n - 1), ops[n - 1]);
    }
  }

  /**
   * Over any history of installs, upgrades, overwrites and removals the invariant holds throughout
   * exactly when every overwriting import was one its dry run without `overwrite` accepts.
   */
  lemma HistoryIsSound(hand: map<Key, Row>, ops: seq<Op>)
    requires forall op :: op in ops && op.Install? ==> ValidPack(op.pack)
    ensures (forall n :: 0 <= n <= |ops| ==> Sound(hand, After(hand, ops, n)))
       <==> (forall n :: 0 <= n < |ops| ==> Careful(ops[n], After(hand, ops, n)))
  {
    if forall n :: 0 <= n < |ops| ==> Careful(ops[n], After(hand, ops, n)) {
      forall n | 0 <= n <= |ops| ensures Sound(hand, After(hand, ops, n)) { CarefulSoFar(hand, ops, n); }
    }
    if forall n :: 0 <= n <= |ops| ==> Sound(hand, After(hand, ops, n)) {
      forall n | 0 <= n < |ops| ensures Careful(ops[n], After(hand, ops, n)) {
        AfterStep(hand, ops, n);
        StepKeepsSound(hand, After(hand, ops, n), ops[n]);
      }
    }
  }

  /** Without `overwrite` every history is careful. */
  lemma PlainHistoryIsSound(hand: map<Key, Row>, ops: seq<Op>)
    requires forall op :: op in ops && op.Install? ==> ValidPack(op.pack) && !op.overwrite
    ensures Sound(hand, Run(ops, Db(hand, [])))
  {
    forall i | 0 <= i < |ops| ensures Careful(ops[i], After(hand, ops, i)) { assert ops[i] in ops; }
    CarefulSoFar(hand, ops, |ops|);
    assert ops[..|ops|] == ops;
  }

  /** The row is what one of the first `n` operations' documents says of that object. */
  ghost predicate FromDocument(ops: seq<Op>, n: nat, k: Key, r: Row) {
    exists i, f :: 0 <= i < n && i < |ops| && ops[i].Install?
         && f in ops[i].pack.entries && KeyOf(f) == k && r == WriteRow(f)
  }

  lemma StepRow(hand: map<Key, Row>, ops: seq<Op>, n: nat, k: Key)
    requires n < |ops| && Sound(hand, After(hand, ops, n))
    requires ops[n].Install? ==> ValidPack(ops[n].pack)
    requires k in After(hand, ops, n).rows ==> k in hand || FromDocument(ops, n, k, After(hand, ops, n).rows[k])
    ensures var next := Step(ops[n], After(hand, ops, n)).rows;
            k in next ==> k in hand || FromDocument(ops, n + 1, k, next[k])
  {
    var db := After(hand, ops, n);
    match ops[n] {
      case Install(pack, overwrite, problems) =>
        if Apply(PlanInstall(pack, db, overwrite, problems), db).Ok? {
          if Has(pack, k) {
            var e :| e in pack.entries && KeyOf(e) == k;
            InstalledEntry(pack, db, overwrite, problems, e);
          } else {
            InstalledElsewhere(pack, db, overwrite, problems, k);
          }
        }
      case Uninstall(name) =>
        if PlanUninstall(name, db).Some? {
          InstalledFacts(db.packs, name);
          UninstalledRows(name, db, k);
        }
    }
  }

  /**
   * Every row that is not hand-authored is, title and flag included, what some document of the
   * history wrote; with the invariant, a rule's is one with the text of the version installed now.
   */
  lemma {:induction false} RowsComeFromDocuments(hand: map<Key, Row>, ops: seq<Op>, n: nat, k: Key)
    requires n <= |ops| && forall op :: op in ops && op.Install? ==> ValidPack(op.pack)
    requires forall i :: 0 <= i < n ==> Careful(ops[i], After(hand, ops, i))
    ensures k in After(hand, ops, n).rows ==> k in hand || FromDocument(ops, n, k, After(hand, ops, n).rows[k])
  {
    if n > 0 {
      RowsComeFromDocuments(hand, ops, n - 1, k);
      CarefulSoFar(hand, ops, n - 1);
      AfterStep(hand, ops, n - 1);
      StepRow(hand, ops, n - 1, k);
    }
  }

  /** Installing a pack that was not there and removing it again restores everything. */
  lemma InstallThenUninstall(hand: map<Key, Row>, db: Db, pack: Pack, problems: seq<string>)
    requires Sound(hand, db) && ValidPack(pack) && Installed(db.packs, pack.name).None?
    requires Apply(PlanInstall(pack, db, false, problems), db).Ok?
    ensures Step(Uninstall(pack.name), Step(Install(pack, false, problems), db)) == db
  {
    var mid := Apply(PlanInstall(pack, db, false, problems), db).value;
    AcceptedInstalls(db, pack, problems);
    InstallKeepsSound(hand, db, pack, problems);
    NewestIsInstalled(db, pack, mid);
    AcceptedUninstalls(mid, pack.name);
    ThereAndBack(hand, db, pack, mid, Apply(PlanUninstall(pack.name, mid).value, mid).value);
  }

  lemma NewestIsInstalled(db: Db, pack: Pack, mid: Db)
    requires Installs(db, pack, mid)
    ensures Installed(mid.packs, pack.name) == Some(pack)
  {
    assert mid.packs[|mid.packs| - 1] == pack;
  }

  lemma ThereAndBack(hand: map<Key, Row>, db: Db, pack: Pack, mid: Db, end: Db)
    requires Sound(hand, db) && ValidPack(pack) && Installed(db.packs, pack.name).None?
    requires Installs(db, pack, mid) && Uninstalls(mid, pack.name, end)
    ensures end == db
  {
    PacksThereAndBack(db.packs, pack);
    forall k ensures (k in end.rows <==> k in db.rows) && (k in db.rows ==> end.rows[k] == db.rows[k]) {
      RowThereAndBack(hand, db, pack, mid, end, k);
    }
    assert end.rows == db.rows;
  }

  lemma PacksThereAndBack(packs: seq<Pack>, pack: Pack)
    requires Installed(packs, pack.name).None?
    ensures Filter(OtherName(pack.name), WithPack(packs, pack)) == packs
  {
    InstalledFacts(packs, pack.name);
    FilterAll(OtherName(pack.name), packs);
    FilterAppend(OtherName(pack.name), packs, [pack]);
    FilterNone(OtherName(pack.name), [pack]);
  }

  lemma RowThereAndBack(hand: map<Key, Row>, db: Db, pack: Pack, mid: Db, end: Db, k: Key)
    requires Sound(hand, db) && ValidPack(pack) && Installed(db.packs, pack.name).None?
    requires Installs(db, pack, mid) && Uninstalls(mid, pack.name, end)
    ensures (k in end.rows <==> k in db.rows) && (k in db.rows ==> end.rows[k] == db.rows[k])
  {
    NewestIsInstalled(db, pack, mid);
    assert ElsewhereKept(mid, pack.name, k, end);
    if Has(pack, k) {
      var e :| e in pack.entries && KeyOf(e) == k;
      assert EntryInstalled(db, pack, e, mid);
      OwnerIsHolder(db.packs, k, pack.name);
    } else {
      assert ElsewhereKept(db, pack.name, k, mid);
    }
  }

  /**
   * An upgrade ends where removing the old version and installing the new one would: with the same
   * packs and the same rows, except that a rule whose YAML text did not change keeps the title and
   * the enabled flag it had.
   */
  lemma UpgradeIsReinstall(hand: map<Key, Row>, db: Db, pack: Pack, problems: seq<string>, k: Key)
    requires Sound(hand, db) && ValidPack(pack) && Installed(db.packs, pack.name).Some?
    requires Apply(PlanInstall(pack, db, false, problems), db).Ok?
    ensures var upgraded := Step(Install(pack, false, problems), db);
            var reinstalled := Step(Install(pack, false, problems), Step(Uninstall(pack.name), db));
            && upgraded.packs == reinstalled.packs
            && (k in upgraded.rows <==> k in reinstalled.rows)
            && (k in upgraded.rows ==>
                 (upgraded.rows[k] != reinstalled.rows[k] <==>
                    (exists e :: e in pack.entries && KeyOf(e) == k && k in db.rows && KeptAtOldTitle(e, db.rows[k]))))
  {
    var bare, up := Step(Uninstall(pack.name), db), Step(Install(pack, false, problems), db);
    StepUninstalls(hand, db, pack.name);
    AcceptedInstalls(db, pack, problems);
    RoomAfterRemoval(hand, db, pack, bare, up);
    AbsentIsAccepted(pack, bare, problems);
    AcceptedInstalls(bare, pack, problems);
    TwoWays(hand, db, pack, bare, up, Step(Install(pack, false, problems), bare), k);
  }

  lemma StepUninstalls(hand: map<Key, Row>, db: Db, name: string)
    requires Sound(hand, db) && Installed(db.packs, name).Some?
    ensures Uninstalls(db, name, Step(Uninstall(name), db)) && Sound(hand, Step(Uninstall(name), db))
  {
    AcceptedUninstalls(db, name);
    RemovalKeepsSound(hand, db, name, Step(Uninstall(name), db));
  }

  /**
   * A plan is accepted exactly when nothing stands against the pack and, unless it may overwrite, every object
   * already there is the pack's own.
   */
  lemma InstallAccepted(pack: Pack, db: Db, overwrite: bool, problems: seq<string>)
    requires pack.name != ""
    ensures Apply(PlanInstall(pack, db, overwrite, problems), db).Ok?
       <==> && problems == []
            && (overwrite
                || forall e :: e in pack.entries && KeyOf(e) in db.rows ==> Owner(db.packs, KeyOf(e)) == pack.name)
  {
    var cs := PlanInstall(pack, db, overwrite, problems).changes;
    forall c | c in cs
      ensures c.verb == Conflict ==> exists e :: e in pack.entries && EntryChange(db, pack, overwrite, e) == c
    {
      InstallChanges(pack, db, overwrite, problems, c);
    }
    forall e | e in pack.entries ensures EntryChange(db, pack, overwrite, e) in cs {
      InstallChanges(pack, db, overwrite, problems, EntryChange(db, pack, overwrite, e));
    }
  }

  lemma AbsentIsAccepted(pack: Pack, db: Db, problems: seq<string>)
    requires problems == [] && forall e :: e in pack.entries ==> KeyOf(e) !in db.rows
    ensures Apply(PlanInstall(pack, db, false, problems), db).Ok?
  {
    var cs := PlanInstall(pack, db, false, problems).changes;
    forall c | c in cs ensures c.verb != Conflict {
      InstallChanges(pack, db, false, problems, c);
    }
  }

  lemma RoomAfterRemoval(hand: map<Key, Row>, db: Db, pack: Pack, bare: Db, up: Db)
    requires Sound(hand, db) && ValidPack(pack) && Uninstalls(db, pack.name, bare) && Installs(db, pack, up)
    ensures forall e :: e in pack.entries ==> KeyOf(e) !in bare.rows
  {
    forall e | e in pack.entries ensures KeyOf(e) !in bare.rows {
      assert EntryInstalled(db, pack, e, up);
      OwnerIsHolder(db.packs, KeyOf(e), pack.name);
      assert ElsewhereKept(db, pack.name, KeyOf(e), bare);
    }
  }

  /** A rule with the same YAML text under another title or enabled flag. */
  predicate KeptAtOldTitle(e: Entry, r: Row) {
    e.RuleEntry? && r.RuleRow? && r.yaml == e.yaml && (r.title != e.title || r.enabled != e.enabled)
  }

  lemma TwoWays(hand: map<Key, Row>, db: Db, pack: Pack, bare: Db, up: Db, re: Db, k: Key)
    requires Sound(hand, db) && Sound(hand, bare) && ValidPack(pack)
    requires Uninstalls(db, pack.name, bare) && Installs(db, pack, up) && Installs(bare, pack, re)
    ensures up.packs == re.packs && (k in up.rows <==> k in re.rows)
    ensures k in up.rows ==>
              (up.rows[k] != re.rows[k] <==>
                 (exists e :: e in pack.entries && KeyOf(e) == k && k in db.rows && KeptAtOldTitle(e, db.rows[k])))
  {
    KeptPacks(db.packs, pack.name);
    FilterAll(OtherName(pack.name), bare.packs);
    assert ElsewhereKept(db, pack.name, k, bare);
    if Has(pack, k) {
      var e :| e in pack.entries && KeyOf(e) == k;
      EntryTwoWays(hand, db, pack, bare, up, re, e);
      forall f | f in pack.entries && KeyOf(f) == k ensures f == e { EntryByKey(pack, e, f); }
    } else {
      assert ElsewhereKept(db, pack.name, k, up) && ElsewhereKept(bare, pack.name, k, re);
      InstalledFacts(bare.packs, pack.name);
      assert forall e :: e in pack.entries ==> KeyOf(e) != k;
    }
  }

  lemma EntryTwoWays(hand: map<Key, Row>, db: Db, pack: Pack, bare: Db, up: Db, re: Db, e: Entry)
    requires Sound(hand, db) && ValidPack(pack) && e in pack.entries
    requires Uninstalls(db, pack.name, bare) && Installs(db, pack, up) && Installs(bare, pack, re)
    ensures var k := KeyOf(e);
            && k in up.rows && k in re.rows && re.rows[k] == WriteRow(e)
            && (up.rows[k] != WriteRow(e) <==> k in db.rows && KeptAtOldTitle(e, db.rows[k]))
  {
    RoomAfterRemoval(hand, db, pack, bare, up);
    assert EntryInstalled(db, pack, e, up) && EntryInstalled(bare, pack, e, re);
    InstallStores(hand, db, pack, up, e);
  }

  lemma OwnRuleUpgrades(db: Db, v1: Pack, v2: Pack, e1: Entry, e2: Entry)
    requires db.packs == [v1] && v1.entries == [e1] && v2.entries == [e2] && v1.name == v2.name != ""
    requires e1.RuleEntry? && e2.RuleEntry? && e1.id == e2.id && e1.yaml == e2.yaml
    requires KeyOf(e1) in db.rows && db.rows[KeyOf(e1)] == WriteRow(e1)
    ensures Apply(PlanInstall(v2, db, false, []), db).Ok?
    ensures var after := Step(Install(v2, false, []), db);
            after.packs == [v2] && KeyOf(e2) in after.rows && after.rows[KeyOf(e2)] == WriteRow(e1)
  {
    assert e1 in v1.entries && Has(v1, KeyOf(e2)) && e2 in v2.entries;
    assert Owner(db.packs, KeyOf(e2)) == v2.name;
    forall c | c in PlanInstall(v2, db, false, []).changes ensures c.verb != Conflict {
      InstallChanges(v2, db, false, [], c);
    }
    InstalledPacks(v2, db, false, []);
    InstalledEntry(v2, db, false, [], e2);
    assert Filter(OtherName(v2.name), [v1]) == [];
  }

  /** A new title alone does not get through: version 2 is installed, and its rule keeps the title of version 1. */
  lemma NewTitleIsMissed(yaml: string)
    ensures var e1, e2 := RuleEntry("r", "old", yaml, true), RuleEntry("r", "new", yaml, true);
            var v1, v2 := Pack("a", "1", [e1]), Pack("a", "2", [e2]);
            var once := Step(Install(v1, false, []), Db(map[], []));
            var twice := Step(Install(v2, false, []), once);
            && Apply(PlanInstall(v1, Db(map[], []), false, []), Db(map[], [])).Ok?
            && Apply(PlanInstall(v2, once, false, []), once).Ok?
            && twice.packs == [v2] && KeyOf(e2) in twice.rows && twice.rows[KeyOf(e2)] == RuleRow("old", yaml, true)
  {
    var e1, e2 := RuleEntry("r", "old", yaml, true), RuleEntry("r", "new", yaml, true);
    var v1, v2, none := Pack("a", "1", [e1]), Pack("a", "2", [e2]), Db(map[], []);
    AbsentIsAccepted(v1, none, []);
    InstalledPacks(v1, none, false, []);
    InstalledEntry(v1, none, false, [], e1);
    var once := Step(Install(v1, false, []), none);
    assert once.packs == [v1] && once.rows[KeyOf(e1)] == WriteRow(e1);
    OwnRuleUpgrades(once, v1, v2, e1, e2);
  }

  // ------------------------------------------------------- what a careless `overwrite` leads to

  /**
   * With `overwrite` an upgrade can delete another pack's object: version 2 of the first pack drops
   * a rule that the second pack took over, and the deletion does not ask who owns it.
   */
  lemma OverwriteDeletesAnothersRule(r: Entry)
    requires r.RuleEntry?
    ensures var a1, a2, b := Pack("a", "1", [r]), Pack("a", "2", []), Pack("b", "1", [r]);
            var start := Db(map[KeyOf(r) := WriteRow(r)], [a1]);
            Apply(PlanInstall(b, start, true, []), start).Ok?
            && var taken := Apply(PlanInstall(b, start, true, []), start).value;
            && Owner(taken.packs, KeyOf(r)) == "b" && KeyOf(r) in taken.rows
            && Apply(PlanInstall(a2, taken, false, []), taken).Ok?
            && KeyOf(r) !in Apply(PlanInstall(a2, taken, false, []), taken).value.rows
  {
    var a1, a2, b, k := Pack("a", "1", [r]), Pack("a", "2", []), Pack("b", "1", [r]), KeyOf(r);
    var start := Db(map[k := WriteRow(r)], [a1]);
    TakeOver(start, b, r);
    var taken := Apply(PlanInstall(b, start, true, []), start).value;
    assert Filter(OtherName("b"), [a1]) == [a1];
    assert taken.packs == [a1, b];
    assert r in b.entries && Has(b, k);
    DropListedRule(taken, a1, a2, b, r);
  }

  lemma TakeOver(db: Db, b: Pack, r: Entry)
    requires r.RuleEntry? && b.entries == [r] && b.name != ""
    ensures Apply(PlanInstall(b, db, true, []), db).Ok?
    ensures var taken := Apply(PlanInstall(b, db, true, []), db).value;
            KeyOf(r) in taken.rows && taken.packs == WithPack(db.packs, b)
  {
    var plan := PlanInstall(b, db, true, []);
    forall c | c in plan.changes ensures c.verb != Conflict {
      InstallChanges(b, db, true, [], c);
    }
    InstalledPacks(b, db, true, []);
    InstalledEntry(b, db, true, [], r);
  }

  lemma DropListedRule(db: Db, a1: Pack, a2: Pack, b: Pack, r: Entry)
    requires db.packs == [a1, b] && a1.entries == [r] && a2.entries == [] && a1.name == a2.name != b.name
    ensures Apply(PlanInstall(a2, db, false, []), db).Ok?
    ensures KeyOf(r) !in Apply(PlanInstall(a2, db, false, []), db).value.rows
  {
    var plan := PlanInstall(a2, db, false, []);
    forall c | c in plan.changes ensures c.verb != Conflict {
      InstallChanges(a2, db, false, [], c);
    }
    assert db.packs[..1] == [a1];
    assert Installed(db.packs, a2.name) == Some(a1);
    assert r in a1.entries && Has(a1, KeyOf(r));
    InstalledElsewhere(a2, db, false, [], KeyOf(r));
  }
}
