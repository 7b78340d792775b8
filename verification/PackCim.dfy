/** app/contentpack.py: how installed packs widen the CIM registry. */
module PackCim {
  import opened Prelude
  import opened CimSpec
  import opened CimMatch

  /** A pack's additions to one model; clauses and fields are still raw YAML here. */
  datatype CimEntry = CimEntry(model: string, membership: seq<string>, fields: seq<string>)

  /** The registry's own parsers, which may refuse, and `str.lower` with and without `strip`. */
  datatype Parsers = Parsers(
    clause: string -> Option<Clause>, field: string -> Option<Field>,
    lower: string -> string, fold: string -> string)

  /** The last model for which `p` holds, as a dictionary built in order would keep it. */
  function LastTag(p: Model -> bool, models: seq<Model>): Option<string> {
    if models == [] then None
    else if p(models[|models| - 1]) then Some(models[|models| - 1].tag)
    else LastTag(p, models[..|models| - 1])
  }

  function Tagged(key: string): Model -> bool { (m: Model) => m.tag == key }

  function Named(ps: Parsers, key: string): Model -> bool { (m: Model) => ps.lower(m.name) == key }

  /** `known.get(entry.model.strip().lower())`: tags are entered after names, so a tag wins. */
  function Target(ps: Parsers, models: seq<Model>, name: string): Option<string> {
    var key := ps.fold(name);
    var byTag := LastTag(Tagged(key), models);
    if byTag.Some? then byTag else LastTag(Named(ps, key), models)
  }

  lemma {:induction false} LastTagIsATag(p: Model -> bool, models: seq<Model>)
    ensures LastTag(p, models).Some? ==> exists m :: m in models && m.tag == LastTag(p, models).value
  {
    if models != [] {
      var k := |models| - 1;
      assert models == models[..k] + [models[k]];
      if p(models[k]) { assert models[k] in models; } else { LastTagIsATag(p, models[..k]); }
    }
  }

  /** Model `i` is the last for which `p` holds. */
  ghost predicate LastWith(p: Model -> bool, models: seq<Model>, i: nat) {
    i < |models| && p(models[i]) && forall j :: i < j < |models| ==> !p(models[j])
  }

  lemma {:induction false} LastTagMeans(p: Model -> bool, models: seq<Model>)
    ensures match LastTag(p, models)
            case None => forall m :: m in models ==> !p(m)
            case Some(tag) => exists i: nat :: LastWith(p, models, i) && models[i].tag == tag
  {
    if models != [] {
      var front, last := models[..|models| - 1], models[|models| - 1];
      assert models == front + [last];
      LastTagMeans(p, front);
      if p(last) {
        assert LastWith(p, models, |front|);
      } else if LastTag(p, front).Some? {
        var i: nat :| LastWith(p, front, i) && front[i].tag == LastTag(p, front).value;
        assert forall j :: 0 <= j < |front| ==> front[j] == models[j];
        assert LastWith(p, models, i);
      }
    }
  }

  /** An entry is aimed at the model with that tag if there is one, else at the last with that name, else at none. */
  lemma TargetMeans(ps: Parsers, models: seq<Model>, name: string)
    ensures var key, target := ps.fold(name), Target(ps, models, name);
            if exists m :: m in models && m.tag == key then target == Some(key)
            else match target
              case None => forall m :: m in models ==> ps.lower(m.name) != key
              case Some(tag) => exists i: nat :: LastWith(Named(ps, key), models, i) && models[i].tag == tag
  {
    var key := ps.fold(name);
    LastTagMeans(Tagged(key), models);
    LastTagMeans(Named(ps, key), models);
  }

  /** Parse a list of raw clauses; one refusal refuses all. */
  function ParseClauses(ps: Parsers, specs: seq<string>): Option<seq<Clause>> {
    if specs == [] then Some([])
    else
      var front := ParseClauses(ps, specs[..|specs| - 1]);
      var last := ps.clause(specs[|specs| - 1]);
      if front.Some? && last.Some? then Some(front.value + [last.value]) else None
  }

  predicate HasName(fields: seq<Field>, name: string) {
    exists i :: 0 <= i < |fields| && fields[i].name == name
  }

  /** Append parsed fields one by one, refusing a name already there. */
  function AddFields(ps: Parsers, fields: seq<Field>, specs: seq<string>): Option<seq<Field>> {
    if specs == [] then Some(fields)
    else
      var front := AddFields(ps, fields, specs[..|specs| - 1]);
      var last := ps.field(specs[|specs| - 1]);
      if front.Some? && last.Some? && !HasName(front.value, last.value.name)
      then Some(front.value + [last.value]) else None
  }

  /** One entry's clauses and fields on top of what earlier entries gave. */
  function AddEntry(
    ps: Parsers, clauses: seq<Clause>, fields: seq<Field>, e: CimEntry): Option<(seq<Clause>, seq<Field>)>
  {
    var cs := ParseClauses(ps, e.membership);
    var fs := AddFields(ps, fields, e.fields);
    if cs.Some? && fs.Some? then Some((clauses + cs.value, fs.value)) else None
  }

  function AddEntries(ps: Parsers, m: Model, es: seq<CimEntry>): Option<(seq<Clause>, seq<Field>)> {
    if es == [] then Some((m.clauses, m.fields))
    else
      var front := AddEntries(ps, m, es[..|es| - 1]);
      if front.None? then None else AddEntry(ps, front.value.0, front.value.1, es[|es| - 1])
  }

  /** A model with its additions; the version documents the schema, so only fields raise it. */
  function Extend(ps: Parsers, m: Model, es: seq<CimEntry>): Option<Model> {
    var r := AddEntries(ps, m, es);
    if r.None? then None
    else Some(Model(m.name, m.tag, m.version + (if |r.value.1| > |m.fields| then 1 else 0), r.value.0, r.value.1))
  }

  function Additions(ps: Parsers, models: seq<Model>, entries: seq<CimEntry>, tag: string): seq<CimEntry> {
    Filter((e: CimEntry) => Target(ps, models, e.model) == Some(tag), entries)
  }

  predicate AllKnown(ps: Parsers, models: seq<Model>, entries: seq<CimEntry>) {
    forall e :: e in entries ==> Target(ps, models, e.model).Some?
  }

  function ExtendAll(ps: Parsers, models: seq<Model>, entries: seq<CimEntry>, todo: seq<Model>): Option<seq<Model>> {
    if todo == [] then Some([])
    else
      var front := ExtendAll(ps, models, entries, todo[..|todo| - 1]);
      var m := todo[|todo| - 1];
      var last := Extend(ps, m, Additions(ps, models, entries, m.tag));
      if front.Some? && last.Some? then Some(front.value + [last.value]) else None
  }

  /** `merge_cim`; nothing stands for the exception. */
  function Merge(ps: Parsers, models: seq<Model>, entries: seq<CimEntry>): Option<seq<Model>> {
    if AllKnown(ps, models, entries) then ExtendAll(ps, models, entries, models) else None
  }

  // ------------------------------------------------------- the loops

  /** The two inner loops for one entry, with the `names` set that guards against redefinition. */
  method AppendEntry(ps: Parsers, clauses0: seq<Clause>, fields0: seq<Field>, names0: set<string>, e: CimEntry)
    returns (ok: bool, clauses: seq<Clause>, fields: seq<Field>, names: set<string>)
    requires forall n :: n in names0 <==> HasName(fields0, n)
    ensures ok <==> AddEntry(ps, clauses0, fields0, e).Some?
    ensures ok ==> AddEntry(ps, clauses0, fields0, e) == Some((clauses, fields))
    ensures ok ==> forall n :: n in names <==> HasName(fields, n)
  {
    ok, clauses, fields, names := false, clauses0, fields0, names0;
    assert clauses0 + [] == clauses0;
    for i := 0 to |e.membership|
      invariant ParseClauses(ps, e.membership[..i]).Some?
      invariant clauses == clauses0 + ParseClauses(ps, e.membership[..i]).value
    {
      ParseStep(ps, e.membership, i);
      var c := ps.clause(e.membership[i]);
      if c.None? {
        ParsePrefixFails(ps, e.membership, i + 1);
        return;
      }
      clauses := clauses + [c.value];
    }
    assert e.membership[..|e.membership|] == e.membership;
    for i := 0 to |e.fields|
      invariant AddFields(ps, fields0, e.fields[..i]) == Some(fields)
      invariant forall n :: n in names <==> HasName(fields, n)
    {
      FieldStep(ps, fields0, e.fields, i);
      var f := ps.field(e.fields[i]);
      if f.None? || f.value.name in names {
        FieldPrefixFails(ps, fields0, e.fields, i + 1);
        return;
      }
      HasNameSnoc(fields, f.value);
      names := names + {f.value.name};
      fields := fields + [f.value];
    }
    assert e.fields[..|e.fields|] == e.fields;
    ok := true;
  }

  lemma HasNameSnoc(fields: seq<Field>, f: Field)
    ensures forall n :: HasName(fields + [f], n) <==> HasName(fields, n) || n == f.name
  {
    forall n ensures HasName(fields + [f], n) <==> HasName(fields, n) || n == f.name {
      var s := fields + [f];
      assert s[|fields|] == f;
      if HasName(fields, n) {
        var i :| 0 <= i < |fields| && fields[i].name == n;
        assert s[i].name == n;
      }
    }
  }

  lemma ParseStep(ps: Parsers, specs: seq<string>, i: nat)
    requires i < |specs|
    ensures specs[..i + 1][..i] == specs[..i] && specs[..i + 1][i] == specs[i]
    ensures ParseClauses(ps, specs[..i + 1])
         == (var front := ParseClauses(ps, specs[..i]); var last := ps.clause(specs[i]);
             if front.Some? && last.Some? then Some(front.value + [last.value]) else None)
  {}

  lemma FieldStep(ps: Parsers, fields: seq<Field>, specs: seq<string>, i: nat)
    requires i < |specs|
    ensures AddFields(ps, fields, specs[..i + 1])
         == (var front := AddFields(ps, fields, specs[..i]); var last := ps.field(specs[i]);
             if front.Some? && last.Some? && !HasName(front.value, last.value.name)
             then Some(front.value + [last.value]) else None)
  {
    assert specs[..i + 1][..i] == specs[..i] && specs[..i + 1][i] == specs[i];
  }

  lemma {:induction false} ParsePrefixFails(ps: Parsers, specs: seq<string>, i: nat)
    requires i <= |specs| && ParseClauses(ps, specs[..i]).None?
    ensures ParseClauses(ps, specs).None?
    decreases |specs| - i
  {
    if i == |specs| {
      assert specs[..i] == specs;
    } else {
      ParseStep(ps, specs, i);
      ParsePrefixFails(ps, specs, i + 1);
    }
  }

  lemma {:induction false} FieldPrefixFails(ps: Parsers, fields: seq<Field>, specs: seq<string>, i: nat)
    requires i <= |specs| && AddFields(ps, fields, specs[..i]).None?
    ensures AddFields(ps, fields, specs).None?
    decreases |specs| - i
  {
    if i == |specs| {
      assert specs[..i] == specs;
    } else {
      FieldStep(ps, fields, specs, i);
      FieldPrefixFails(ps, fields, specs, i + 1);
    }
  }

  /** The loop over one model's additions. */
  method ExtendModel(ps: Parsers, m: Model, es: seq<CimEntry>) returns (r: Option<Model>)
    ensures r == Extend(ps, m, es)
  {
    var clauses, fields := m.clauses, m.fields;
    var names := set i | 0 <= i < |fields| :: fields[i].name;
    for i := 0 to |es|
      invariant AddEntries(ps, m, es[..i]) == Some((clauses, fields))
      invariant forall n :: n in names <==> HasName(fields, n)
    {
      assert es[..i + 1][..i] == es[..i] && es[..i + 1][i] == es[i];
      var ok, cs, fs, ns := AppendEntry(ps, clauses, fields, names, es[i]);
      if !ok {
        EntryPrefixFails(ps, m, es, i + 1);
        return None;
      }
      clauses, fields, names := cs, fs, ns;
    }
    assert es[..|es|] == es;
    return Some(Model(m.name, m.tag, m.version + (if |fields| > |m.fields| then 1 else 0), clauses, fields));
  }

  lemma {:induction false} EntryPrefixFails(ps: Parsers, m: Model, es: seq<CimEntry>, i: nat)
    requires i <= |es| && AddEntries(ps, m, es[..i]).None?
    ensures AddEntries(ps, m, es).None?
    decreases |es| - i
  {
    if i == |es| {
      assert es[..i] == es;
    } else {
      assert es[..i + 1][..i] == es[..i];
      EntryPrefixFails(ps, m, es, i + 1);
    }
  }

  /** `byModel` lists, under each tag, the entries aimed at it. */
  ghost predicate Listed(ps: Parsers, models: seq<Model>, entries: seq<CimEntry>, byModel: map<string, seq<CimEntry>>) {
    forall tag :: (if tag in byModel then byModel[tag] else []) == Additions(ps, models, entries, tag)
  }

  lemma ListedStep(
    ps: Parsers, models: seq<Model>, entries: seq<CimEntry>, i: nat,
    before: map<string, seq<CimEntry>>, after: map<string, seq<CimEntry>>, tag: string)
    requires i < |entries| && Target(ps, models, entries[i].model) == Some(tag)
    requires Listed(ps, models, entries[..i], before)
    requires after == before[tag := (if tag in before then before[tag] else []) + [entries[i]]]
    ensures Listed(ps, models, entries[..i + 1], after)
  {
    forall t ensures (if t in after then after[t] else []) == Additions(ps, models, entries[..i + 1], t) {
      AdditionsStep(ps, models, entries, i, t);
    }
  }

  lemma ListedNone(ps: Parsers, models: seq<Model>, entries: seq<CimEntry>)
    ensures Listed(ps, models, entries[..0], map[]) && AllKnown(ps, models, entries[..0])
  {
    assert entries[..0] == [];
  }

  lemma KnownStep(ps: Parsers, models: seq<Model>, entries: seq<CimEntry>, i: nat)
    requires i < |entries| && AllKnown(ps, models, entries[..i])
    ensures AllKnown(ps, models, entries[..i + 1]) <==> Target(ps, models, entries[i].model).Some?
    ensures Target(ps, models, entries[i].model).None? ==> !AllKnown(ps, models, entries)
  {
    assert entries[..i + 1] == entries[..i] + [entries[i]];
    assert entries[i] in entries[..i + 1] && entries[i] in entries;
  }

  /** The `by_model` dictionary, or nothing when an entry names no model of this build. */
  method ByModel(ps: Parsers, models: seq<Model>, entries: seq<CimEntry>)
    returns (r: Option<map<string, seq<CimEntry>>>)
    ensures r.Some? <==> AllKnown(ps, models, entries)
    ensures r.Some? ==> Listed(ps, models, entries, r.value)
  {
    var byModel: map<string, seq<CimEntry>> := map[];
    ListedNone(ps, models, entries);
    for i := 0 to |entries|
      invariant AllKnown(ps, models, entries[..i])
      invariant Listed(ps, models, entries[..i], byModel)
    {
      KnownStep(ps, models, entries, i);
      var tag := Target(ps, models, entries[i].model);
      if tag.None? {
        return None;
      }
      var k := tag.value;
      ghost var before := byModel;
      byModel := byModel[k := (if k in byModel then byModel[k] else []) + [entries[i]]];
      ListedStep(ps, models, entries, i, before, byModel, k);
    }
    assert entries[..|entries|] == entries;
    return Some(byModel);
  }

  lemma AdditionsStep(ps: Parsers, models: seq<Model>, entries: seq<CimEntry>, i: nat, tag: string)
    requires i < |entries|
    ensures Additions(ps, models, entries[..i + 1], tag) == Additions(ps, models, entries[..i], tag)
              + (if Target(ps, models, entries[i].model) == Some(tag) then [entries[i]] else [])
  {
    var p := (e: CimEntry) => Target(ps, models, e.model) == Some(tag);
    assert entries[..i + 1] == entries[..i] + [entries[i]];
    FilterAppend(p, entries[..i], [entries[i]]);
    assert Filter(p, [entries[i]]) == (if p(entries[i]) then [entries[i]] else []) + Filter(p, [entries[i]][1..]);
  }

  lemma ExtendStep(ps: Parsers, models: seq<Model>, entries: seq<CimEntry>, i: nat)
    requires i < |models|
    ensures ExtendAll(ps, models, entries, models[..i + 1])
         == (var front := ExtendAll(ps, models, entries, models[..i]);
             var last := Extend(ps, models[i], Additions(ps, models, entries, models[i].tag));
             if front.Some? && last.Some? then Some(front.value + [last.value]) else None)
  {
    assert models[..i + 1][..i] == models[..i] && models[..i + 1][i] == models[i];
  }

  /** One model more: it joins the result, or its failure is the failure of the merge. */
  lemma ExtendOne(ps: Parsers, models: seq<Model>, entries: seq<CimEntry>, i: nat, out: seq<Model>, x: Option<Model>)
    requires i < |models| && ExtendAll(ps, models, entries, models[..i]) == Some(out)
    requires x == Extend(ps, models[i], Additions(ps, models, entries, models[i].tag))
    ensures x.Some? ==> ExtendAll(ps, models, entries, models[..i + 1]) == Some(out + [x.value])
    ensures x.None? ==> ExtendAll(ps, models, entries, models).None?
  {
    ExtendStep(ps, models, entries, i);
    if x.None? { ModelPrefixFails(ps, models, entries, models, i + 1); }
  }

  /** A model without additions is carried over as it is. */
  lemma ExtendNothing(ps: Parsers, m: Model)
    ensures Extend(ps, m, []) == Some(m)
  {}

  method MergeCim(ps: Parsers, models: seq<Model>, entries: seq<CimEntry>) returns (r: Option<seq<Model>>)
    ensures r == Merge(ps, models, entries)
  {
    var byModel := ByModel(ps, models, entries);
    if byModel.None? {
      return None;
    }
    r := ExtendModels(ps, models, entries, byModel.value);
  }

  /** One turn of that loop: a model nobody adds to is carried over. */
  method ExtendOrCarry(ps: Parsers, m: Model, adds: seq<CimEntry>) returns (r: Option<Model>)
    ensures r == Extend(ps, m, adds)
  {
    if adds == [] {
      ExtendNothing(ps, m);
      return Some(m);
    }
    r := ExtendModel(ps, m, adds);
  }

  /** The loop over the registry's models, in order. */
  method ExtendModels(ps: Parsers, models: seq<Model>, entries: seq<CimEntry>, byModel: map<string, seq<CimEntry>>)
    returns (r: Option<seq<Model>>)
    requires Listed(ps, models, entries, byModel)
    ensures r == ExtendAll(ps, models, entries, models)
  {
    var out: seq<Model> := [];
    assert models[..0] == [];
    for i := 0 to |models|
      invariant ExtendAll(ps, models, entries, models[..i]) == Some(out)
    {
      var m := models[i];
      var x := ExtendOrCarry(ps, m, if m.tag in byModel then byModel[m.tag] else []);
      ExtendOne(ps, models, entries, i, out, x);
      if x.None? {
        return None;
      }
      out := out + [x.value];
    }
    assert models[..|models|] == models;
    return Some(out);
  }

  lemma {:induction false} ModelPrefixFails(
    ps: Parsers, models: seq<Model>, entries: seq<CimEntry>, todo: seq<Model>, i: nat)
    requires i <= |todo| && ExtendAll(ps, models, entries, todo[..i]).None?
    ensures ExtendAll(ps, models, entries, todo).None?
    decreases |todo| - i
  {
    if i == |todo| {
      assert todo[..i] == todo;
    } else {
      assert todo[..i + 1][..i] == todo[..i];
      ModelPrefixFails(ps, models, entries, todo, i + 1);
    }
  }

  // ------------------------------------------------------- additive only

  lemma {:induction false} AddFieldsGrow(ps: Parsers, fields: seq<Field>, specs: seq<string>)
    requires AddFields(ps, fields, specs).Some?
    ensures fields <= AddFields(ps, fields, specs).value
    ensures |AddFields(ps, fields, specs).value| == |fields| + |specs|
    ensures UniqueNames(fields) ==> UniqueNames(AddFields(ps, fields, specs).value)
  {
    if specs != [] {
      AddFieldsGrow(ps, fields, specs[..|specs| - 1]);
    }
  }

  ghost predicate UniqueNames(fields: seq<Field>) {
    forall i, j :: 0 <= i < j < |fields| ==> fields[i].name != fields[j].name
  }

  lemma {:induction false} AddEntriesGrow(ps: Parsers, m: Model, es: seq<CimEntry>)
    requires AddEntries(ps, m, es).Some?
    ensures m.clauses <= AddEntries(ps, m, es).value.0
    ensures m.fields <= AddEntries(ps, m, es).value.1
    ensures UniqueNames(m.fields) ==> UniqueNames(AddEntries(ps, m, es).value.1)
  {
    if es != [] {
      var k := |es| - 1;
      AddEntriesGrow(ps, m, es[..k]);
      var front := AddEntries(ps, m, es[..k]).value;
      AddFieldsGrow(ps, front.1, es[k].fields);
    }
  }

  lemma {:induction false} ExtendAllAt(ps: Parsers, models: seq<Model>, entries: seq<CimEntry>, todo: seq<Model>)
    requires ExtendAll(ps, models, entries, todo).Some?
    ensures |ExtendAll(ps, models, entries, todo).value| == |todo|
    ensures forall i :: 0 <= i < |todo| ==>
              Extend(ps, todo[i], Additions(ps, models, entries, todo[i].tag))
              == Some(ExtendAll(ps, models, entries, todo).value[i])
  {
    if todo != [] { ExtendAllAt(ps, models, entries, todo[..|todo| - 1]); }
  }

  /**
   * A merge keeps every model in its place with its name and tag, keeps what it had as a prefix,
   * keeps field names unique, and raises a version exactly when that model gained a field.
   */
  lemma MergeKeepsWhatWasThere(ps: Parsers, models: seq<Model>, entries: seq<CimEntry>, i: nat)
    requires Merge(ps, models, entries).Some? && i < |models|
    ensures var merged := Merge(ps, models, entries).value;
            && |merged| == |models|
            && merged[i].name == models[i].name && merged[i].tag == models[i].tag
            && models[i].clauses <= merged[i].clauses && models[i].fields <= merged[i].fields
            && (UniqueNames(models[i].fields) ==> UniqueNames(merged[i].fields))
            && merged[i].version == models[i].version + (if merged[i].fields != models[i].fields then 1 else 0)
  {
    ExtendAllAt(ps, models, entries, models);
    AddEntriesGrow(ps, models[i], Additions(ps, models, entries, models[i].tag));
  }

  // ------------------------------------------------------- what a merge holds, and when there is one

  lemma {:induction false} ParseMeans(ps: Parsers, specs: seq<string>)
    ensures ParseClauses(ps, specs).Some? <==> forall s :: s in specs ==> ps.clause(s).Some?
    ensures ParseClauses(ps, specs).Some? ==>
              forall c :: c in ParseClauses(ps, specs).value <==> exists s :: s in specs && ps.clause(s) == Some(c)
  {
    if specs != [] {
      var front, last := specs[..|specs| - 1], specs[|specs| - 1];
      assert specs == front + [last];
      ParseMeans(ps, front);
    }
  }

  /** Every spec parses, to a name that neither the fields nor an earlier spec have. */
  ghost predicate FreshFields(ps: Parsers, fields: seq<Field>, specs: seq<string>) {
    && (forall i :: 0 <= i < |specs| ==> ps.field(specs[i]).Some? && !HasName(fields, ps.field(specs[i]).value.name))
    && forall i, j :: 0 <= i < j < |specs| ==> NameOf(ps, specs[i]) != NameOf(ps, specs[j])
  }

  /** The name a spec parses to. */
  function NameOf(ps: Parsers, spec: string): Option<string> {
    if ps.field(spec).None? then None else Some(ps.field(spec).value.name)
  }

  lemma FreshFront(ps: Parsers, fields: seq<Field>, front: seq<string>, last: string)
    ensures FreshFields(ps, fields, front + [last]) <==>
              && FreshFields(ps, fields, front)
              && ps.field(last).Some? && !HasName(fields, ps.field(last).value.name)
              && forall s :: s in front ==> NameOf(ps, s) != NameOf(ps, last)
  {
    var specs := front + [last];
    if FreshFields(ps, fields, specs) {
      assert specs[|front|] == last;
      forall i | 0 <= i < |front|
        ensures ps.field(front[i]).Some? && !HasName(fields, ps.field(front[i]).value.name)
        ensures NameOf(ps, front[i]) != NameOf(ps, last)
      {
        assert specs[i] == front[i];
      }
      forall i, j | 0 <= i < j < |front| ensures NameOf(ps, front[i]) != NameOf(ps, front[j]) {
        assert specs[i] == front[i] && specs[j] == front[j];
      }
    }
  }

  lemma {:induction false} AddFieldsMeans(ps: Parsers, fields: seq<Field>, specs: seq<string>)
    ensures AddFields(ps, fields, specs).Some? <==> FreshFields(ps, fields, specs)
    ensures AddFields(ps, fields, specs).Some? ==>
              forall f :: f in AddFields(ps, fields, specs).value
                <==> f in fields || exists s :: s in specs && ps.field(s) == Some(f)
  {
    if specs != [] {
      var front, last := specs[..|specs| - 1], specs[|specs| - 1];
      assert specs == front + [last];
      AddFieldsMeans(ps, fields, front);
      FreshFront(ps, fields, front, last);
      if AddFields(ps, fields, front).Some? && ps.field(last).Some? {
        NamesAdded(ps, fields, front, ps.field(last).value.name);
      }
    }
  }

  lemma NamesAdded(ps: Parsers, fields: seq<Field>, specs: seq<string>, name: string)
    requires AddFields(ps, fields, specs).Some?
    requires forall f :: f in AddFields(ps, fields, specs).value
               <==> f in fields || exists s :: s in specs && ps.field(s) == Some(f)
    ensures HasName(AddFields(ps, fields, specs).value, name)
       <==> HasName(fields, name) || exists s :: s in specs && NameOf(ps, s) == Some(name)
  {
    var all := AddFields(ps, fields, specs).value;
    if HasName(all, name) {
      var i :| 0 <= i < |all| && all[i].name == name;
      assert all[i] in all;
      if all[i] in fields {
        var j :| 0 <= j < |fields| && fields[j] == all[i];
      }
    }
    if HasName(fields, name) {
      var i :| 0 <= i < |fields| && fields[i].name == name;
      assert fields[i] in all;
      var j :| 0 <= j < |all| && all[j] == fields[i];
    }
    if s :| s in specs && NameOf(ps, s) == Some(name) {
      assert ps.field(s).value in all;
      var j :| 0 <= j < |all| && all[j] == ps.field(s).value;
    }
  }

  function ClausesOf(e: CimEntry): seq<string> { e.membership }

  function FieldsOf(e: CimEntry): seq<string> { e.fields }

  /** All raw clauses, and all raw fields, of some entries, in order. */
  function ClauseSpecs(es: seq<CimEntry>): seq<string> { Flatten(Map(ClausesOf, es)) }

  function FieldSpecs(es: seq<CimEntry>): seq<string> { Flatten(Map(FieldsOf, es)) }

  lemma SpecsSnoc(es: seq<CimEntry>, e: CimEntry)
    ensures ClauseSpecs(es + [e]) == ClauseSpecs(es) + e.membership
    ensures FieldSpecs(es + [e]) == FieldSpecs(es) + e.fields
  {
    assert Map(ClausesOf, es + [e]) == Map(ClausesOf, es) + [e.membership];
    assert Map(FieldsOf, es + [e]) == Map(FieldsOf, es) + [e.fields];
    FlattenAppend(Map(ClausesOf, es), [e.membership]);
    FlattenAppend(Map(FieldsOf, es), [e.fields]);
    assert [e.membership][1..] == [] && [e.fields][1..] == [];
  }

  lemma {:induction false} ParseAppend(ps: Parsers, a: seq<string>, b: seq<string>)
    ensures ParseClauses(ps, a + b).Some? <==> ParseClauses(ps, a).Some? && ParseClauses(ps, b).Some?
    ensures ParseClauses(ps, a + b).Some? ==>
              ParseClauses(ps, a + b).value == ParseClauses(ps, a).value + ParseClauses(ps, b).value
  {
    if b == [] {
      assert a + b == a;
    } else {
      var n := |b| - 1;
      assert (a + b)[..|a| + n] == a + b[..n] && (a + b)[|a| + n] == b[n];
      ParseAppend(ps, a, b[..n]);
    }
  }

  lemma {:induction false} AddFieldsAppend(ps: Parsers, fields: seq<Field>, a: seq<string>, b: seq<string>)
    ensures AddFields(ps, fields, a + b)
         == match AddFields(ps, fields, a) case None => None case Some(more) => AddFields(ps, more, b)
  {
    if b == [] {
      assert a + b == a;
    } else {
      var n := |b| - 1;
      assert (a + b)[..|a| + n] == a + b[..n] && (a + b)[|a| + n] == b[n];
      AddFieldsAppend(ps, fields, a, b[..n]);
    }
  }

  lemma {:induction false} AddEntriesFlat(ps: Parsers, m: Model, es: seq<CimEntry>)
    ensures var cs, fs := ParseClauses(ps, ClauseSpecs(es)), AddFields(ps, m.fields, FieldSpecs(es));
            && (AddEntries(ps, m, es).Some? <==> cs.Some? && fs.Some?)
            && (AddEntries(ps, m, es).Some? ==> AddEntries(ps, m, es).value == (m.clauses + cs.value, fs.value))
  {
    if es == [] {
      assert m.clauses + [] == m.clauses;
    } else {
      var front, e := es[..|es| - 1], es[|es| - 1];
      assert es == front + [e];
      AddEntriesFlat(ps, m, front);
      SpecsSnoc(front, e);
      ParseAppend(ps, ClauseSpecs(front), e.membership);
      AddFieldsAppend(ps, m.fields, FieldSpecs(front), e.fields);
      if AddEntries(ps, m, es).Some? {
        Assoc(m.clauses, ParseClauses(ps, ClauseSpecs(front)).value, ParseClauses(ps, e.membership).value);
      }
    }
  }

  lemma {:induction false} ExtendAllSucceeds(ps: Parsers, models: seq<Model>, entries: seq<CimEntry>, todo: seq<Model>)
    ensures ExtendAll(ps, models, entries, todo).Some?
       <==> forall m :: m in todo ==> AddEntries(ps, m, Additions(ps, models, entries, m.tag)).Some?
  {
    if todo != [] {
      assert todo == todo[..|todo| - 1] + [todo[|todo| - 1]];
      ExtendAllSucceeds(ps, models, entries, todo[..|todo| - 1]);
    }
  }

  /** The entries aimed at a model can all be read, and add only fields of new names. */
  ghost predicate Acceptable(ps: Parsers, m: Model, adds: seq<CimEntry>) {
    && (forall s :: s in ClauseSpecs(adds) ==> ps.clause(s).Some?)
    && FreshFields(ps, m.fields, FieldSpecs(adds))
  }

  /** A merge succeeds exactly when every entry is aimed at some model and each model's entries are acceptable. */
  lemma MergeAccepted(ps: Parsers, models: seq<Model>, entries: seq<CimEntry>)
    ensures Merge(ps, models, entries).Some? <==>
              && (forall e :: e in entries ==> Target(ps, models, e.model).Some?)
              && forall m :: m in models ==> Acceptable(ps, m, Additions(ps, models, entries, m.tag))
  {
    ExtendAllSucceeds(ps, models, entries, models);
    forall m | m in models
      ensures AddEntries(ps, m, Additions(ps, models, entries, m.tag)).Some?
         <==> Acceptable(ps, m, Additions(ps, models, entries, m.tag))
    {
      var adds := Additions(ps, models, entries, m.tag);
      AddEntriesFlat(ps, m, adds);
      ParseMeans(ps, ClauseSpecs(adds));
      AddFieldsMeans(ps, m.fields, FieldSpecs(adds));
    }
  }

  lemma {:induction false} SpecsIn(es: seq<CimEntry>, s: string)
    ensures s in ClauseSpecs(es) <==> exists e :: e in es && s in e.membership
    ensures s in FieldSpecs(es) <==> exists e :: e in es && s in e.fields
  {
    if es != [] {
      var front, last := es[..|es| - 1], es[|es| - 1];
      assert es == front + [last];
      SpecsIn(front, s);
      SpecsSnoc(front, last);
      if e :| e in front && s in e.membership { assert e in es; }
      if e :| e in front && s in e.fields { assert e in es; }
      assert last in es;
    }
  }

  /** The entry is aimed at the model. */
  ghost predicate AimedAt(ps: Parsers, models: seq<Model>, m: Model, e: CimEntry) {
    Target(ps, models, e.model) == Some(m.tag)
  }

  /** What a merged model holds: its own clauses and fields, and those its entries spell, no others. */
  lemma MergedHolds(ps: Parsers, models: seq<Model>, entries: seq<CimEntry>, i: nat, c: Clause, f: Field)
    requires Merge(ps, models, entries).Some? && i < |models|
    ensures |Merge(ps, models, entries).value| == |models|
    ensures c in Merge(ps, models, entries).value[i].clauses
       <==> c in models[i].clauses
            || exists e, s :: e in entries && AimedAt(ps, models, models[i], e)
                 && s in e.membership && ps.clause(s) == Some(c)
    ensures f in Merge(ps, models, entries).value[i].fields
       <==> f in models[i].fields
            || exists e, s :: e in entries && AimedAt(ps, models, models[i], e)
                 && s in e.fields && ps.field(s) == Some(f)
  {
    var m, adds := models[i], Additions(ps, models, entries, models[i].tag);
    ExtendAllAt(ps, models, entries, models);
    AddEntriesFlat(ps, m, adds);
    ParseMeans(ps, ClauseSpecs(adds));
    AddFieldsMeans(ps, m.fields, FieldSpecs(adds));
    FilterIn((e: CimEntry) => Target(ps, models, e.model) == Some(m.tag), entries);
    forall s ensures s in ClauseSpecs(adds) <==> exists e :: e in adds && s in e.membership { SpecsIn(adds, s); }
    forall s ensures s in FieldSpecs(adds) <==> exists e :: e in adds && s in e.fields { SpecsIn(adds, s); }
  }

  /** Some raw clause of the entry parses to one the event matches. */
  predicate EntryMatches(ps: Parsers, fold: string -> string, e: CimEntry, evt: Event) {
    exists s :: s in e.membership && ps.clause(s).Some? && ClauseMatches(fold, ps.clause(s).value, evt)
  }

  predicate AnyMatches(fold: string -> string, clauses: seq<Clause>, evt: Event) {
    exists c :: c in clauses && ClauseMatches(fold, c, evt)
  }

  predicate AnyEntry(ps: Parsers, fold: string -> string, es: seq<CimEntry>, evt: Event) {
    exists e :: e in es && EntryMatches(ps, fold, e, evt)
  }

  lemma AnyMatchesAppend(fold: string -> string, a: seq<Clause>, b: seq<Clause>, evt: Event)
    ensures AnyMatches(fold, a + b, evt) <==> AnyMatches(fold, a, evt) || AnyMatches(fold, b, evt)
  {
    if c :| c in a && ClauseMatches(fold, c, evt) { assert c in a + b; }
    if c :| c in b && ClauseMatches(fold, c, evt) { assert c in a + b; }
  }

  lemma AnyEntrySnoc(ps: Parsers, fold: string -> string, es: seq<CimEntry>, e: CimEntry, evt: Event)
    ensures AnyEntry(ps, fold, es + [e], evt) <==> AnyEntry(ps, fold, es, evt) || EntryMatches(ps, fold, e, evt)
  {
    if x :| x in es && EntryMatches(ps, fold, x, evt) { assert x in es + [e]; }
    if EntryMatches(ps, fold, e, evt) { assert e in es + [e]; }
  }

  lemma {:induction false} ParsedMatches(ps: Parsers, fold: string -> string, specs: seq<string>, evt: Event)
    requires ParseClauses(ps, specs).Some?
    ensures AnyMatches(fold, ParseClauses(ps, specs).value, evt)
       <==> exists s :: s in specs && ps.clause(s).Some? && ClauseMatches(fold, ps.clause(s).value, evt)
  {
    if specs != [] {
      var k := |specs| - 1;
      ParsedMatches(ps, fold, specs[..k], evt);
      assert specs == specs[..k] + [specs[k]];
      AnyMatchesAppend(fold, ParseClauses(ps, specs[..k]).value, [ps.clause(specs[k]).value], evt);
      assert AnyMatches(fold, [ps.clause(specs[k]).value], evt)
        <==> ClauseMatches(fold, ps.clause(specs[k]).value, evt) by {
        assert ps.clause(specs[k]).value in [ps.clause(specs[k]).value];
      }
    }
  }

  lemma {:induction false} EntriesMatch(ps: Parsers, fold: string -> string, m: Model, es: seq<CimEntry>, evt: Event)
    requires AddEntries(ps, m, es).Some?
    ensures AnyMatches(fold, AddEntries(ps, m, es).value.0, evt)
       <==> ModelMatches(fold, m, evt) || AnyEntry(ps, fold, es, evt)
  {
    if es != [] {
      var k := |es| - 1;
      EntriesMatch(ps, fold, m, es[..k], evt);
      ParsedMatches(ps, fold, es[k].membership, evt);
      AnyMatchesAppend(fold, AddEntries(ps, m, es[..k]).value.0, ParseClauses(ps, es[k].membership).value, evt);
      AnyEntrySnoc(ps, fold, es[..k], es[k], evt);
      assert es == es[..k] + [es[k]];
    }
  }

  /** One model after a merge matches what it matched before, or what its additions match. */
  lemma ModelAfterMerge(
    ps: Parsers, fold: string -> string, models: seq<Model>, entries: seq<CimEntry>, i: nat, evt: Event)
    requires Merge(ps, models, entries).Some? && i < |models|
    ensures |Merge(ps, models, entries).value| == |models|
    ensures ModelMatches(fold, Merge(ps, models, entries).value[i], evt)
       <==> ModelMatches(fold, models[i], evt)
            || exists e :: e in entries && Target(ps, models, e.model) == Some(models[i].tag)
                 && EntryMatches(ps, fold, e, evt)
  {
    ExtendAllAt(ps, models, entries, models);
    var adds := Additions(ps, models, entries, models[i].tag);
    FilterIn((e: CimEntry) => Target(ps, models, e.model) == Some(models[i].tag), entries);
    EntriesMatch(ps, fold, models[i], adds, evt);
  }

  /**
   * Membership is purely additive: an event carries a tag under the merged registry exactly when
   * it did before or some entry aimed at that model has a matching clause.
   */
  lemma MergeIsAdditive(
    ps: Parsers, fold: string -> string, models: seq<Model>, entries: seq<CimEntry>, evt: Event, tag: string)
    requires Merge(ps, models, entries).Some?
    ensures tag in MatchingTags(fold, Merge(ps, models, entries).value, evt)
       <==> tag in MatchingTags(fold, models, evt)
            || exists e :: e in entries && Target(ps, models, e.model) == Some(tag) && EntryMatches(ps, fold, e, evt)
  {
    var merged := Merge(ps, models, entries).value;
    MatchingTagsFacts(fold, models, evt);
    MatchingTagsFacts(fold, merged, evt);
    if tag in MatchingTags(fold, merged, evt) {
      ExtendAllAt(ps, models, entries, models);
      var m :| m in merged && m.tag == tag && ModelMatches(fold, m, evt);
      var i :| 0 <= i < |merged| && merged[i] == m;
      MergeKeepsWhatWasThere(ps, models, entries, i);
      ModelAfterMerge(ps, fold, models, entries, i, evt);
      assert models[i] in models;
    } else {
      forall m | m in models && m.tag == tag ensures !ModelMatches(fold, m, evt) {
        if ModelMatches(fold, m, evt) { MergedHas(ps, fold, models, entries, m, evt); }
      }
      forall e | e in entries && Target(ps, models, e.model) == Some(tag) ensures !EntryMatches(ps, fold, e, evt) {
        if EntryMatches(ps, fold, e, evt) {
          var m := TargetModel(ps, models, e.model, tag);
          MergedHas(ps, fold, models, entries, m, evt);
        }
      }
    }
  }

  lemma TargetModel(ps: Parsers, models: seq<Model>, name: string, tag: string) returns (m: Model)
    requires Target(ps, models, name) == Some(tag)
    ensures m in models && m.tag == tag
  {
    var key := ps.fold(name);
    LastTagIsATag((m: Model) => m.tag == key, models);
    LastTagIsATag((m: Model) => ps.lower(m.name) == key, models);
    m :| m in models && m.tag == tag;
  }

  lemma MergedHas(ps: Parsers, fold: string -> string, models: seq<Model>, entries: seq<CimEntry>, m: Model, evt: Event)
    requires Merge(ps, models, entries).Some? && m in models
    requires ModelMatches(fold, m, evt)
             || exists e :: e in entries && Target(ps, models, e.model) == Some(m.tag) && EntryMatches(ps, fold, e, evt)
    ensures exists x :: x in Merge(ps, models, entries).value && x.tag == m.tag
                     && ModelMatches(fold, x, evt)
  {
    var i :| 0 <= i < |models| && models[i] == m;
    MergeKeepsWhatWasThere(ps, models, entries, i);
    ModelAfterMerge(ps, fold, models, entries, i, evt);
    var x := Merge(ps, models, entries).value[i];
    assert x in Merge(ps, models, entries).value;
  }

  // ------------------------------------------------------- the merged registry can be evaluated

  predicate ClauseCompiles(c: Clause) {
    forall t :: t in c.terms ==> CompileTerm(t).Ok?
  }

  /** What the registry's own clause parser accepts it can also compile. */
  ghost predicate ReadsWell(ps: Parsers) {
    forall spec :: ps.clause(spec).Some? ==> ClauseCompiles(ps.clause(spec).value)
  }

  lemma {:induction false} ParsedCompile(ps: Parsers, specs: seq<string>)
    requires ReadsWell(ps) && ParseClauses(ps, specs).Some?
    ensures forall c :: c in ParseClauses(ps, specs).value ==> ClauseCompiles(c)
  {
    if specs != [] { ParsedCompile(ps, specs[..|specs| - 1]); }
  }

  lemma {:induction false} EntriesCompile(ps: Parsers, m: Model, es: seq<CimEntry>)
    requires ReadsWell(ps) && AddEntries(ps, m, es).Some?
    requires forall c :: c in m.clauses ==> ClauseCompiles(c)
    ensures forall c :: c in AddEntries(ps, m, es).value.0 ==> ClauseCompiles(c)
  {
    if es != [] {
      EntriesCompile(ps, m, es[..|es| - 1]);
      ParsedCompile(ps, es[|es| - 1].membership);
    }
  }

  /** A merge of a well-formed registry is well formed, so that evaluating it never fails. */
  lemma MergedIsWellFormed(ps: Parsers, models: seq<Model>, entries: seq<CimEntry>)
    requires ReadsWell(ps) && WellFormed(models) && Merge(ps, models, entries).Some?
    ensures WellFormed(Merge(ps, models, entries).value)
  {
    var merged := Merge(ps, models, entries).value;
    ExtendAllAt(ps, models, entries, models);
    forall m, c | m in merged && c in m.clauses ensures ClauseCompiles(c) {
      var i :| 0 <= i < |merged| && merged[i] == m;
      assert models[i] in models;
      forall d | d in models[i].clauses ensures ClauseCompiles(d) {}
      EntriesCompile(ps, models[i], Additions(ps, models, entries, models[i].tag));
    }
    forall m | m in merged ensures forall c :: c in m.clauses ==> forall t :: t in c.terms ==> CompileTerm(t).Ok? {
      forall c | c in m.clauses ensures forall t :: t in c.terms ==> CompileTerm(t).Ok? { assert ClauseCompiles(c); }
    }
  }

  /** `overlay_registry`: a pack that will not merge leaves the shipped registry intact. */
  function Overlay(ps: Parsers, models: seq<Model>, entries: seq<CimEntry>): (r: seq<Model>)
  {
    match Merge(ps, models, entries)
    case Some(merged) => merged
    case None => models
  }

  /**
   * What an event carries under the overlay: the tags of the shipped registry, and those some entry aims at
   * with a clause that matches when every entry merges. When one does not, the registry stays as shipped.
   */
  lemma OverlayMeans(
    ps: Parsers, fold: string -> string, models: seq<Model>, entries: seq<CimEntry>, evt: Event, tag: string)
    ensures Merge(ps, models, entries).None? ==> Overlay(ps, models, entries) == models
    ensures Merge(ps, models, entries).Some? ==>
      (tag in MatchingTags(fold, Overlay(ps, models, entries), evt)
       <==> tag in MatchingTags(fold, models, evt)
            || exists e :: e in entries && Target(ps, models, e.model) == Some(tag) && EntryMatches(ps, fold, e, evt))
  {
    if Merge(ps, models, entries).Some? {
      MergeIsAdditive(ps, fold, models, entries, evt, tag);
    }
  }

  /** The overlay can always be evaluated, and loses no membership the shipped registry gives. */
  lemma OverlayIsSafe(
    ps: Parsers, fold: string -> string, models: seq<Model>, entries: seq<CimEntry>, evt: Event, tag: string)
    requires ReadsWell(ps) && WellFormed(models)
    ensures WellFormed(Overlay(ps, models, entries))
    ensures tag in MatchingTags(fold, models, evt) ==> tag in MatchingTags(fold, Overlay(ps, models, entries), evt)
  {
    if Merge(ps, models, entries).Some? {
      MergedIsWellFormed(ps, models, entries);
      MergeIsAdditive(ps, fold, models, entries, evt, tag);
    }
  }
}
