/** app/assets/csvio.py: multi-valued cells. */
module CsvCells {
  import opened Prelude

  /** What the text functions depend on: which characters strip removes, and lower-casing. */
  datatype Text = Text(space: char -> bool, lower: string -> string)

  predicate Trimmed(t: Text, s: string) {
    s != "" ==> !t.space(s[0]) && !t.space(s[|s| - 1])
  }

  lemma StripOfTrimmed(t: Text, s: string)
    requires Trimmed(t, s)
    ensures Strip(t.space, s) == s
  {}

  lemma {:induction false} StripChars(t: Text, s: string, c: char)
    ensures c in Strip(t.space, s) ==> c in s
  {
    LeftChars(t, s, c);
    RightChars(t, TrimLeft(t.space, s), c);
  }

  lemma {:induction false} LeftChars(t: Text, s: string, c: char)
    ensures c in TrimLeft(t.space, s) ==> c in s
  {
    if s != "" && t.space(s[0]) { LeftChars(t, s[1..], c); }
  }

  lemma {:induction false} RightChars(t: Text, s: string, c: char)
    ensures c in TrimRight(t.space, s) ==> c in s
  {
    if s != "" && t.space(s[|s| - 1]) { RightChars(t, s[..|s| - 1], c); }
  }

  /** `s.split(c)`. */
  function SplitOn(c: char, s: string): (r: seq<string>)
    ensures r != []
  {
    if s == "" then [""]
    else var rest := SplitOn(c, s[1..]);
         if s[0] == c then [""] + rest else [[s[0]] + rest[0]] + rest[1..]
  }

  lemma {:induction false} PiecesHaveNoSeparator(c: char, s: string)
    ensures forall p :: p in SplitOn(c, s) ==> c !in p
  {
    if s != "" { PiecesHaveNoSeparator(c, s[1..]); }
  }

  lemma {:induction false} SplitOnFirst(c: char, a: string, rest: string)
    requires c !in a
    ensures SplitOn(c, a + [c] + rest) == [a] + SplitOn(c, rest)
  {
    var s := a + [c] + rest;
    if a == "" {
      assert s[1..] == rest;
    } else {
      assert s[1..] == a[1..] + [c] + rest;
      SplitOnFirst(c, a[1..], rest);
      assert s[0] == a[0] && a == [a[0]] + a[1..];
      assert SplitOn(c, s[1..])[1..] == SplitOn(c, rest);
    }
  }

  lemma {:induction false} SplitOnNone(c: char, a: string)
    requires c !in a
    ensures SplitOn(c, a) == [a]
  {
    if a != "" {
      SplitOnNone(c, a[1..]);
      assert a == [a[0]] + a[1..];
    }
  }

  /** `";".join(items)`. */
  function Join(items: seq<string>): string {
    if items == [] then "" else if |items| == 1 then items[0] else items[0] + [';'] + Join(items[1..])
  }

  function Filled(t: Text): string -> bool { p => Strip(t.space, p) != "" }

  function Tidy(t: Text): string -> string { p => t.lower(Strip(t.space, p)) }

  /** `_split`: the first separator present in the cell wins. */
  function SplitCell(t: Text, cell: string): seq<string> {
    var s := Strip(t.space, cell);
    if s == "" then []
    else if ';' in s then Map(Tidy(t), Filter(Filled(t), SplitOn(';', s)))
    else if '|' in s then Map(Tidy(t), Filter(Filled(t), SplitOn('|', s)))
    else if ',' in s then Map(Tidy(t), Filter(Filled(t), SplitOn(',', s)))
    else [t.lower(s)]
  }

  predicate Separator(c: char) { c == ';' || c == '|' || c == ',' }

  /** Lower-casing neither makes nor removes a separator. */
  ghost predicate KeepsSeparators(t: Text) {
    forall s, c :: Separator(c) ==> (c in t.lower(s) <==> c in s)
  }

  /** A label or alias value as the registry stores it. */
  predicate Stored(t: Text, item: string) {
    item != "" && Trimmed(t, item) && t.lower(item) == item
  }

  /** No item holds a semicolon, and an item on its own holds no other separator either. */
  predicate Splittable(items: seq<string>) {
    (forall i :: 0 <= i < |items| ==> ';' !in items[i]) && (|items| == 1 ==> '|' !in items[0] && ',' !in items[0])
  }

  lemma {:induction false} JoinEnds(t: Text, items: seq<string>)
    requires items != [] && forall i :: 0 <= i < |items| ==> Stored(t, items[i])
    ensures Join(items) != "" && Trimmed(t, Join(items))
  {
    if |items| > 1 { JoinEnds(t, items[1..]); }
  }

  lemma {:induction false} JoinHas(items: seq<string>, i: nat, c: char)
    requires i < |items| && c in items[i]
    ensures c in Join(items)
  {
    if |items| > 1 && i > 0 { JoinHas(items[1..], i - 1, c); }
  }

  lemma {:induction false} SplitOnJoin(items: seq<string>)
    requires items != [] && forall i :: 0 <= i < |items| ==> ';' !in items[i]
    ensures SplitOn(';', Join(items)) == items
  {
    if |items| == 1 {
      SplitOnNone(';', items[0]);
    } else {
      SplitOnFirst(';', items[0], Join(items[1..]));
      SplitOnJoin(items[1..]);
    }
  }

  lemma {:induction false} TidyStored(t: Text, items: seq<string>)
    requires forall i :: 0 <= i < |items| ==> Stored(t, items[i])
    ensures Map(Tidy(t), Filter(Filled(t), items)) == items
  {
    if items != [] {
      StripOfTrimmed(t, items[0]);
      TidyStored(t, items[1..]);
    }
  }

  /** A cell split at a separator yields no item that holds it. */
  lemma SplitLeavesNone(t: Text, c: char, s: string)
    requires KeepsSeparators(t) && Separator(c)
    ensures forall p :: p in Map(Tidy(t), Filter(Filled(t), SplitOn(c, s))) ==> c !in p
  {
    var pieces := Filter(Filled(t), SplitOn(c, s));
    PiecesHaveNoSeparator(c, s);
    FilterIn(Filled(t), SplitOn(c, s));
    var r := Map(Tidy(t), pieces);
    forall i | 0 <= i < |r| ensures c !in r[i] {
      assert pieces[i] in pieces;
      StripChars(t, pieces[i], c);
    }
  }

  // ------------------------------------------------------- the other separators

  function JoinWith(c: char, items: seq<string>): string {
    if items == [] then "" else if |items| == 1 then items[0] else items[0] + [c] + JoinWith(c, items[1..])
  }

  /** Where both are in a cell it is split at `d`: semicolons come before bars, bars before commas. */
  predicate Precedes(d: char, c: char) {
    (d == ';' && (c == '|' || c == ',')) || (d == '|' && c == ',')
  }

  lemma {:induction false} JoinWithEnds(t: Text, c: char, items: seq<string>)
    requires items != [] && forall i :: 0 <= i < |items| ==> Stored(t, items[i])
    ensures JoinWith(c, items) != "" && Trimmed(t, JoinWith(c, items))
  {
    if |items| > 1 { JoinWithEnds(t, c, items[1..]); }
  }

  lemma {:induction false} JoinWithLacks(c: char, d: char, items: seq<string>)
    requires c != d && forall i :: 0 <= i < |items| ==> d !in items[i]
    ensures d !in JoinWith(c, items)
  {
    if |items| > 1 { JoinWithLacks(c, d, items[1..]); }
  }

  lemma {:induction false} SplitOnJoinWith(c: char, items: seq<string>)
    requires items != [] && forall i :: 0 <= i < |items| ==> c !in items[i]
    ensures SplitOn(c, JoinWith(c, items)) == items
  {
    if |items| == 1 {
      SplitOnNone(c, items[0]);
    } else {
      SplitOnFirst(c, items[0], JoinWith(c, items[1..]));
      SplitOnJoinWith(c, items[1..]);
    }
  }

  /** A cell is split at the first separator it holds. */
  lemma SplitsAt(t: Text, c: char, s: string)
    requires Separator(c) && c in s && Strip(t.space, s) == s && forall d :: Precedes(d, c) ==> d !in s
    ensures SplitCell(t, s) == Map(Tidy(t), Filter(Filled(t), SplitOn(c, s)))
  {
    assert Precedes(';', '|') && Precedes(';', ',') && Precedes('|', ',');
  }

  lemma JoinWithHas(c: char, items: seq<string>)
    requires |items| >= 2
    ensures c in JoinWith(c, items)
  {
    assert c in items[0] + [c] + JoinWith(c, items[1..]);
  }

  /** Stored items joined by any of the separators come back, if none holds it or one that comes before it. */
  lemma AnySeparatorReturns(t: Text, c: char, items: seq<string>)
    requires Separator(c) && |items| >= 2 && forall i :: 0 <= i < |items| ==> Stored(t, items[i])
    requires forall i, d :: 0 <= i < |items| && (d == c || Precedes(d, c)) ==> d !in items[i]
    ensures SplitCell(t, JoinWith(c, items)) == items
  {
    var s := JoinWith(c, items);
    JoinWithEnds(t, c, items);
    StripOfTrimmed(t, s);
    JoinWithHas(c, items);
    forall d | Precedes(d, c) ensures d !in s { JoinWithLacks(c, d, items); }
    SplitsAt(t, c, s);
    SplitOnJoinWith(c, items);
    TidyStored(t, items);
  }

  /** Joining stored items and splitting the cell gives them back exactly when they are splittable. */
  lemma SplitUndoesJoin(t: Text, items: seq<string>)
    requires KeepsSeparators(t) && forall i :: 0 <= i < |items| ==> Stored(t, items[i])
    ensures SplitCell(t, Join(items)) == items <==> Splittable(items)
  {
    if items == [] {
    } else {
      var s := Join(items);
      JoinEnds(t, items);
      StripOfTrimmed(t, s);
      if Splittable(items) {
        SplittableReturns(t, items);
      } else {
        UnsplittableDoesNot(t, items);
      }
    }
  }

  lemma {:induction false} SplittableReturns(t: Text, items: seq<string>)
    requires items != [] && forall i :: 0 <= i < |items| ==> Stored(t, items[i])
    requires Splittable(items) && Strip(t.space, Join(items)) == Join(items)
    ensures SplitCell(t, Join(items)) == items
  {
    if |items| > 1 {
      assert ';' in items[0] + [';'] + Join(items[1..]);
      SplitOnJoin(items);
      TidyStored(t, items);
    }
  }

  lemma UnsplittableDoesNot(t: Text, items: seq<string>)
    requires KeepsSeparators(t) && items != [] && !Splittable(items) && Strip(t.space, Join(items)) == Join(items)
    ensures SplitCell(t, Join(items)) != items
  {
    var s := Join(items);
    SplitLeavesNone(t, ';', s);
    SplitLeavesNone(t, '|', s);
    SplitLeavesNone(t, ',', s);
    if i :| 0 <= i < |items| && ';' in items[i] {
      JoinHas(items, i, ';');
      assert items[i] in items;
    } else {
      assert items[0] in items && s == items[0];
    }
  }

  // ------------------------------------------------------- lists of any text

  /** Lower-casing twice is lower-casing once, and it neither empties a text nor gives it blank ends. */
  ghost predicate LowerIsTidy(t: Text) {
    forall s {:trigger t.lower(s)} ::
      && t.lower(t.lower(s)) == t.lower(s)
      && (Trimmed(t, s) ==> Trimmed(t, t.lower(s))) && (s != "" ==> t.lower(s) != "")
  }

  lemma {:induction false} LeftIsTrimmed(t: Text, s: string)
    ensures TrimLeft(t.space, s) != "" ==> !t.space(TrimLeft(t.space, s)[0])
  {
    if s != "" && t.space(s[0]) { LeftIsTrimmed(t, s[1..]); }
  }

  lemma {:induction false} RightIsTrimmed(t: Text, s: string)
    requires s != "" ==> !t.space(s[0])
    ensures Trimmed(t, TrimRight(t.space, s))
  {
    if s != "" && t.space(s[|s| - 1]) { RightIsTrimmed(t, s[..|s| - 1]); }
  }

  lemma StripIsTrimmed(t: Text, s: string)
    ensures Trimmed(t, Strip(t.space, s))
  {
    LeftIsTrimmed(t, s);
    RightIsTrimmed(t, TrimLeft(t.space, s));
  }

  lemma TidyIsStored(t: Text, p: string)
    requires LowerIsTidy(t) && Strip(t.space, p) != ""
    ensures Stored(t, t.lower(Strip(t.space, p)))
  {
    StripIsTrimmed(t, p);
  }

  lemma PiecesAreStored(t: Text, pieces: seq<string>)
    requires LowerIsTidy(t)
    ensures forall x :: x in Map(Tidy(t), Filter(Filled(t), pieces)) ==> Stored(t, x)
  {
    var kept := Filter(Filled(t), pieces);
    FilterIn(Filled(t), pieces);
    forall i | 0 <= i < |kept| ensures Stored(t, Map(Tidy(t), kept)[i]) {
      assert kept[i] in kept;
      TidyIsStored(t, kept[i]);
    }
  }

  /** Whatever the cell, what it is split into is stored text. */
  lemma SplitGivesStored(t: Text, cell: string)
    requires LowerIsTidy(t)
    ensures forall x :: x in SplitCell(t, cell) ==> Stored(t, x)
  {
    var s := Strip(t.space, cell);
    PiecesAreStored(t, SplitOn(';', s));
    PiecesAreStored(t, SplitOn('|', s));
    PiecesAreStored(t, SplitOn(',', s));
    if s != "" { TidyIsStored(t, cell); }
  }

  /** Items of any kind come back from the joined cell exactly when they are stored text and splittable. */
  lemma {:induction false} ListReturns(t: Text, items: seq<string>)
    requires KeepsSeparators(t) && LowerIsTidy(t)
    ensures SplitCell(t, Join(items)) == items
       <==> (forall i :: 0 <= i < |items| ==> Stored(t, items[i])) && Splittable(items)
  {
    SplitGivesStored(t, Join(items));
    if SplitCell(t, Join(items)) == items {
      forall i | 0 <= i < |items| ensures Stored(t, items[i]) { assert items[i] in items; }
    }
    if forall i :: 0 <= i < |items| ==> Stored(t, items[i]) { SplitUndoesJoin(t, items); }
  }
}

/** app/assets/csvio.py: the registry as rows of cells, and back. */
module AssetCsv {
  import opened Prelude
  import opened CsvCells

  /** Which registry: its id column, its columns, its alias kinds and its level column. */
  datatype Spec = Spec(key: string, columns: seq<string>, kinds: seq<string>, level: string)

  const ASSETS := Spec("asset_id",
    ["asset_id", "display_name", "criticality", "category", "owner", "business_unit", "environment",
     "watchlist", "enabled", "notes"],
    ["hostname", "fqdn", "ip", "cidr", "mac"], "criticality")

  const IDENTITIES := Spec("identity_id",
    ["identity_id", "display_name", "priority", "department", "manager", "title", "email",
     "watchlist", "enabled", "notes"],
    ["email", "upn", "sam", "employee_id", "cn"], "priority")

  const LEVELS := ["critical", "high", "medium", "low", "unknown"]

  const NO := ["false", "0", "no", "n", "off", "disabled"]

  datatype Value = Word(text: string) | Labels(items: seq<string>) | Flag(on: bool) | Null

  /** A row as listed by the database; each alias is written `kind:value`. */
  datatype Listed = Listed(id: string, fields: map<string, Value>, aliases: seq<string>)

  /** A row as an import understands it. */
  datatype Entry = Entry(id: string, fields: map<string, Value>, aliases: seq<(string, string)>)

  /** The file once the quoting layer is done: the header, and each row's (name, cell) pairs in order. */
  datatype File = File(header: seq<string>, rows: seq<seq<(string, string)>>)

  datatype Problem =
    | NoHeader | NoKeyColumn | UnknownColumns(names: set<string>) | EmptyKey(line: nat)
    | Twice(line: nat, id: string, first: nat) | BadAlias(line: nat, kind: string, text: string) | NoRows

  datatype Plan = Plan(rows: seq<Entry>, errors: seq<Problem>, aliasless: seq<nat>)

  type Norm = (string, string) -> Option<string>

  // ------------------------------------------------------- reading

  function Fold(t: Text, s: string): string { t.lower(Strip(t.space, s)) }

  /** The row as a dictionary under folded names; pairs without a name are skipped. */
  function Cells(t: Text, pairs: seq<(string, string)>): map<string, string> {
    if pairs == [] then map[]
    else var p := pairs[|pairs| - 1];
         var before := Cells(t, pairs[..|pairs| - 1]);
         if p.0 == "" then before else before[Fold(t, p.0) := p.1]
  }

  function Get(cells: map<string, string>, name: string): string { if name in cells then cells[name] else "" }

  function ReadFlag(t: Text, cell: string): bool {
    var s := Fold(t, cell);
    if s == "" then true else s !in NO
  }

  function ReadLevel(t: Text, cell: string): string {
    var v := Fold(t, if cell == "" then "medium" else cell);
    if v in LEVELS then v else "unknown"
  }

  /** A flag is off only where the cell says so; a level is one of the known ones, the cell's own if it is one. */
  lemma FlagsAndLevels(t: Text, cell: string)
    ensures !ReadFlag(t, cell) <==> Fold(t, cell) in ["false", "0", "no", "n", "off", "disabled"]
    ensures ReadLevel(t, cell) in ["critical", "high", "medium", "low", "unknown"]
    ensures cell != "" && Fold(t, cell) in LEVELS ==> ReadLevel(t, cell) == Fold(t, cell)
    ensures cell != "" && Fold(t, cell) !in LEVELS ==> ReadLevel(t, cell) == "unknown"
    ensures cell == "" && Fold(t, "medium") == "medium" ==> ReadLevel(t, cell) == "medium"
  {
    assert "medium" == LEVELS[2] && "unknown" == LEVELS[4];
    assert "" !in NO;
  }

  function ReadField(t: Text, spec: Spec, col: string, cell: string): Value {
    if col == "category" || col == "watchlist" then Labels(SplitCell(t, cell))
    else if col == "enabled" then Flag(ReadFlag(t, cell))
    else if col == spec.level then Word(ReadLevel(t, cell))
    else Word(Strip(t.space, cell))
  }

  function ReadFields(t: Text, spec: Spec, cells: map<string, string>): map<string, Value> {
    map col | col in spec.columns && col != spec.key :: ReadField(t, spec, col, Get(cells, col))
  }

  /** One alias column. */
  function ReadKind(norm: Norm, kind: string, raws: seq<string>, line: nat): Result<seq<(string, string)>, Problem> {
    if raws == [] then Ok([])
    else match norm(kind, raws[0])
      case None => Err(BadAlias(line, kind, raws[0]))
      case Some(v) =>
        match ReadKind(norm, kind, raws[1..], line)
        case Err(e) => Err(e)
        case Ok(rest) => Ok([(kind, v)] + rest)
  }

  /** `_aliases_from_row`: the columns in the order of the kinds. */
  function ReadAliases(t: Text, norm: Norm, kinds: seq<string>, cells: map<string, string>, line: nat)
    : Result<seq<(string, string)>, Problem>
    decreases kinds
  {
    if kinds == [] then Ok([])
    else match ReadKind(norm, kinds[0], SplitCell(t, Get(cells, kinds[0])), line)
      case Err(e) => Err(e)
      case Ok(first) =>
        match ReadAliases(t, norm, kinds[1..], cells, line)
        case Err(e) => Err(e)
        case Ok(rest) => Ok(first + rest)
  }

  predicate AllBlank(t: Text, cells: map<string, string>) {
    forall name :: name in cells ==> Strip(t.space, cells[name]) == ""
  }

  /** The plan so far and the ids seen, with their lines. */
  datatype Reading = Reading(plan: Plan, seen: map<string, nat>)

  function WithError(r: Reading, e: Problem): Reading {
    r.(plan := r.plan.(errors := r.plan.errors + [e]))
  }

  function ReadRow(t: Text, norm: Norm, spec: Spec, r: Reading, pairs: seq<(string, string)>, line: nat): Reading {
    var cells := Cells(t, pairs);
    var id := Strip(t.space, Get(cells, spec.key));
    if id == "" then (if AllBlank(t, cells) then r else WithError(r, EmptyKey(line)))
    else if id in r.seen then WithError(r, Twice(line, id, r.seen[id]))
    else
      var noted := r.(seen := r.seen[id := line]);
      match ReadAliases(t, norm, spec.kinds, cells, line)
      case Err(e) => WithError(noted, e)
      case Ok(aliases) =>
        noted.(plan := Plan(r.plan.rows + [Entry(id, ReadFields(t, spec, cells), aliases)], r.plan.errors,
                            if aliases == [] then r.plan.aliasless + [line] else r.plan.aliasless))
  }

  function ReadRows(t: Text, norm: Norm, spec: Spec, rows: seq<seq<(string, string)>>): Reading {
    if rows == [] then Reading(Plan([], [], []), map[])
    else ReadRow(t, norm, spec, ReadRows(t, norm, spec, rows[..|rows| - 1]), rows[|rows| - 1], |rows| + 1)
  }

  function Known(spec: Spec): set<string> {
    (set c | c in spec.columns) + (set k | k in spec.kinds)
  }

  function Names(t: Text, header: seq<string>): set<string> {
    set h | h in header :: Fold(t, h)
  }

  /** `_read`. */
  function Read(t: Text, norm: Norm, spec: Spec, file: File): Plan {
    if file.header == [] then Plan([], [NoHeader], [])
    else if spec.key !in Names(t, file.header) then Plan([], [NoKeyColumn], [])
    else if Names(t, file.header) - Known(spec) != {} then
      Plan([], [UnknownColumns(Names(t, file.header) - Known(spec))], [])
    else
      var plan := ReadRows(t, norm, spec, file.rows).plan;
      if plan.rows == [] && plan.errors == [] then plan.(errors := [NoRows]) else plan
  }

  /** The body of the loop over the rows. */
  method ReadLine(
    t: Text, norm: Norm, spec: Spec, plan: Plan, seen: map<string, nat>, pairs: seq<(string, string)>, line: nat)
    returns (plan': Plan, seen': map<string, nat>)
    ensures Reading(plan', seen') == ReadRow(t, norm, spec, Reading(plan, seen), pairs, line)
  {
    plan', seen' := plan, seen;
    var cells := Cells(t, pairs);
    var id := Strip(t.space, Get(cells, spec.key));
    if id == "" && AllBlank(t, cells) {
      return;
    }
    if id == "" {
      plan' := plan.(errors := plan.errors + [EmptyKey(line)]);
      return;
    }
    if id in seen {
      plan' := plan.(errors := plan.errors + [Twice(line, id, seen[id])]);
      return;
    }
    seen' := seen[id := line];
    var aliases := ReadAliases(t, norm, spec.kinds, cells, line);
    if aliases.Err? {
      plan' := plan.(errors := plan.errors + [aliases.error]);
      return;
    }
    if aliases.value == [] {
      plan' := plan'.(aliasless := plan.aliasless + [line]);
    }
    plan' := plan'.(rows := plan.rows + [Entry(id, ReadFields(t, spec, cells), aliases.value)]);
  }

  lemma ReadRowsSnoc(t: Text, norm: Norm, spec: Spec, rows: seq<seq<(string, string)>>, i: nat)
    requires i < |rows|
    ensures ReadRows(t, norm, spec, rows[..i + 1])
         == ReadRow(t, norm, spec, ReadRows(t, norm, spec, rows[..i]), rows[i], i + 2)
  {
    assert rows[..i + 1][..i] == rows[..i] && rows[..i + 1][i] == rows[i];
  }

  /** The loop over the rows. */
  method ReadLines(t: Text, norm: Norm, spec: Spec, rows: seq<seq<(string, string)>>) returns (plan: Plan)
    ensures plan == ReadRows(t, norm, spec, rows).plan
  {
    plan := Plan([], [], []);
    var seen: map<string, nat> := map[];
    for i := 0 to |rows|
      invariant Reading(plan, seen) == ReadRows(t, norm, spec, rows[..i])
    {
      ReadRowsSnoc(t, norm, spec, rows, i);
      plan, seen := ReadLine(t, norm, spec, plan, seen, rows[i], i + 2);
    }
    assert rows[..|rows|] == rows;
  }

  // ------------------------------------------------------- every line is answered for

  /** A cell is found under its folded name; of several with one name the last counts, and one without a name never. */
  lemma {:induction false} CellsMean(t: Text, pairs: seq<(string, string)>, i: nat)
    requires i < |pairs| && pairs[i].0 != ""
    requires forall j :: i < j < |pairs| && pairs[j].0 != "" ==> Fold(t, pairs[j].0) != Fold(t, pairs[i].0)
    ensures Get(Cells(t, pairs), Fold(t, pairs[i].0)) == pairs[i].1
  {
    var n := |pairs| - 1;
    if i < n {
      assert pairs[..n][i] == pairs[i] && forall j :: i < j < n ==> pairs[..n][j] == pairs[j];
      CellsMean(t, pairs[..n], i);
    }
  }

  /** The id a line gives, stripped. */
  function LineId(t: Text, spec: Spec, pairs: seq<(string, string)>): string {
    Strip(t.space, Get(Cells(t, pairs), spec.key))
  }

  /** The ids of the lines, in order. */
  function LineIds(t: Text, spec: Spec, rows: seq<seq<(string, string)>>): seq<string> {
    Map((pairs: seq<(string, string)>) => LineId(t, spec, pairs), rows)
  }

  /** Place `j` is the first to hold the id. */
  ghost predicate FirstAt(ids: seq<string>, j: nat, id: string) {
    j < |ids| && ids[j] == id && id !in ids[..j]
  }

  /**
   * What becomes of a line behind lines with the given ids, lines being counted from two: without an id it is
   * an error unless all its cells are blank; with an id given before it is an error that names the first line
   * with it; else it is a row of the plan, or the first of its aliases that cannot be read is an error.
   */
  ghost predicate Answered(
    t: Text, norm: Norm, spec: Spec, earlier: seq<string>, pairs: seq<(string, string)>, plan: Plan)
  {
    var cells, id, line := Cells(t, pairs), LineId(t, spec, pairs), |earlier| + 2;
    if id == "" then
      (forall name :: name in cells ==> Strip(t.space, cells[name]) == "") || EmptyKey(line) in plan.errors
    else if id in earlier then exists j: nat :: FirstAt(earlier, j, id) && Twice(line, id, j + 2) in plan.errors
    else
      match ReadAliases(t, norm, spec.kinds, cells, line)
      case Err(e) => e in plan.errors
      case Ok(aliases) =>
        && Entry(id, ReadFields(t, spec, cells), aliases) in plan.rows
        && (aliases == [] ==> line in plan.aliasless)
  }

  /** The line gives an id or some cell is not blank. */
  function Speaks(t: Text, spec: Spec): seq<(string, string)> -> bool {
    (pairs: seq<(string, string)>) =>
      var cells := Cells(t, pairs);
      LineId(t, spec, pairs) != "" || exists name :: name in cells && Strip(t.space, cells[name]) != ""
  }

  /** The lines noted are the first ones with their ids. */
  ghost predicate Noted(seen: map<string, nat>, ids: seq<string>, id: string) {
    && (id in seen <==> id != "" && id in ids)
    && (id in seen ==> seen[id] >= 2 && FirstAt(ids, seen[id] - 2, id))
  }

  lemma NotedNext(seen: map<string, nat>, ids: seq<string>, x: string, id: string)
    requires Noted(seen, ids, id)
    ensures Noted(if x == "" || x in seen then seen else seen[x := |ids| + 2], ids + [x], id)
  {
    if id in seen { assert (ids + [x])[..seen[id] - 2] == ids[..seen[id] - 2]; }
    assert (ids + [x])[..|ids|] == ids;
  }

  lemma LineIdsSnoc(t: Text, spec: Spec, rows: seq<seq<(string, string)>>)
    requires rows != []
    ensures var n := |rows| - 1;
            && LineIds(t, spec, rows)[..n] == LineIds(t, spec, rows[..n])
            && LineIds(t, spec, rows) == LineIds(t, spec, rows[..n]) + [LineId(t, spec, rows[n])]
  {}

  lemma SeenNext(t: Text, norm: Norm, spec: Spec, r: Reading, pairs: seq<(string, string)>, line: nat)
    ensures var id := LineId(t, spec, pairs);
            ReadRow(t, norm, spec, r, pairs, line).seen
            == if id == "" || id in r.seen then r.seen else r.seen[id := line]
  {}

  lemma {:induction false} SeenMeans(t: Text, norm: Norm, spec: Spec, rows: seq<seq<(string, string)>>, id: string)
    ensures Noted(ReadRows(t, norm, spec, rows).seen, LineIds(t, spec, rows), id)
  {
    if rows != [] {
      var n := |rows| - 1;
      var before := ReadRows(t, norm, spec, rows[..n]);
      SeenMeans(t, norm, spec, rows[..n], id);
      LineIdsSnoc(t, spec, rows);
      SeenNext(t, norm, spec, before, rows[n], n + 2);
      NotedNext(before.seen, LineIds(t, spec, rows[..n]), LineId(t, spec, rows[n]), id);
    }
  }

  lemma ReadRowGrows(t: Text, norm: Norm, spec: Spec, r: Reading, pairs: seq<(string, string)>, line: nat)
    ensures var next := ReadRow(t, norm, spec, r, pairs, line);
            && r.plan.rows <= next.plan.rows && r.plan.errors <= next.plan.errors
            && r.plan.aliasless <= next.plan.aliasless
            && |next.plan.rows| + |next.plan.errors|
               == |r.plan.rows| + |r.plan.errors| + (if Speaks(t, spec)(pairs) then 1 else 0)
  {}

  lemma RowAnswers(
    t: Text, norm: Norm, spec: Spec, r: Reading, earlier: seq<string>, pairs: seq<(string, string)>)
    requires Noted(r.seen, earlier, LineId(t, spec, pairs))
    ensures Answered(t, norm, spec, earlier, pairs, ReadRow(t, norm, spec, r, pairs, |earlier| + 2).plan)
  {
    var id := LineId(t, spec, pairs);
    if id in r.seen {
      var j: nat := r.seen[id] - 2;
      assert FirstAt(earlier, j, id) && r.seen[id] == j + 2;
    }
  }

  lemma StaysAnswered(
    t: Text, norm: Norm, spec: Spec, earlier: seq<string>, pairs: seq<(string, string)>, before: Plan, after: Plan)
    requires Answered(t, norm, spec, earlier, pairs, before)
    requires before.rows <= after.rows && before.errors <= after.errors && before.aliasless <= after.aliasless
    ensures Answered(t, norm, spec, earlier, pairs, after)
  {
    assert forall n :: n in before.aliasless ==> n in after.aliasless;
    assert forall e :: e in before.errors ==> e in after.errors;
    assert forall r :: r in before.rows ==> r in after.rows;
  }

  /** Each line is answered for: by one row or one error if it says anything, and by none if not. */
  lemma {:induction false} EveryLineIsAnswered(
    t: Text, norm: Norm, spec: Spec, rows: seq<seq<(string, string)>>, i: nat)
    requires i < |rows|
    ensures Answered(t, norm, spec, LineIds(t, spec, rows)[..i], rows[i], ReadRows(t, norm, spec, rows).plan)
  {
    var n := |rows| - 1;
    var before := ReadRows(t, norm, spec, rows[..n]);
    LineIdsSnoc(t, spec, rows);
    if i == n {
      SeenMeans(t, norm, spec, rows[..n], LineId(t, spec, rows[n]));
      RowAnswers(t, norm, spec, before, LineIds(t, spec, rows[..n]), rows[n]);
    } else {
      EveryLineIsAnswered(t, norm, spec, rows[..n], i);
      ReadRowGrows(t, norm, spec, before, rows[n], n + 2);
      assert LineIds(t, spec, rows)[..n][..i] == LineIds(t, spec, rows)[..i];
      StaysAnswered(t, norm, spec, LineIds(t, spec, rows)[..i], rows[i],
                    before.plan, ReadRows(t, norm, spec, rows).plan);
    }
  }

  lemma CountSnoc(p: seq<(string, string)> -> bool, rows: seq<seq<(string, string)>>, x: seq<(string, string)>)
    ensures |Filter(p, rows + [x])| == |Filter(p, rows)| + (if p(x) then 1 else 0)
  {
    FilterAppend(p, rows, [x]);
    assert [x][1..] == [];
  }

  /** How many rows and errors there are. */
  function Total(plan: Plan): nat { |plan.rows| + |plan.errors| }

  lemma TotalNext(
    t: Text, norm: Norm, spec: Spec, front: seq<seq<(string, string)>>, last: seq<(string, string)>)
    requires Total(ReadRows(t, norm, spec, front).plan) == |Filter(Speaks(t, spec), front)|
    ensures Total(ReadRows(t, norm, spec, front + [last]).plan) == |Filter(Speaks(t, spec), front + [last])|
  {
    assert (front + [last])[..|front|] == front;
    ReadRowGrows(t, norm, spec, ReadRows(t, norm, spec, front), last, |front| + 2);
    CountSnoc(Speaks(t, spec), front, last);
  }

  lemma SplitLast(rows: seq<seq<(string, string)>>)
    requires rows != []
    ensures rows == rows[..|rows| - 1] + [rows[|rows| - 1]]
  {}

  /** And there are as many rows and errors as lines that say anything. */
  lemma {:induction false} NothingElseIsAnswered(t: Text, norm: Norm, spec: Spec, rows: seq<seq<(string, string)>>)
    ensures Total(ReadRows(t, norm, spec, rows).plan) == |Filter(Speaks(t, spec), rows)|
  {
    if rows != [] {
      NothingElseIsAnswered(t, norm, spec, rows[..|rows| - 1]);
      TotalNext(t, norm, spec, rows[..|rows| - 1], rows[|rows| - 1]);
      SplitLast(rows);
    }
  }

  ghost predicate DistinctRows(r: Reading) {
    && (forall i :: 0 <= i < |r.plan.rows| ==> r.plan.rows[i].id in r.seen)
    && forall i, j :: 0 <= i < j < |r.plan.rows| ==> r.plan.rows[i].id != r.plan.rows[j].id
  }

  lemma RowStaysDistinct(t: Text, norm: Norm, spec: Spec, r: Reading, pairs: seq<(string, string)>, line: nat)
    requires DistinctRows(r)
    ensures DistinctRows(ReadRow(t, norm, spec, r, pairs, line))
  {
    var next := ReadRow(t, norm, spec, r, pairs, line);
    SeenNext(t, norm, spec, r, pairs, line);
    assert next.plan.rows == r.plan.rows
           || (|next.plan.rows| == |r.plan.rows| + 1 && next.plan.rows[..|r.plan.rows|] == r.plan.rows
               && next.plan.rows[|r.plan.rows|].id !in r.seen && next.plan.rows[|r.plan.rows|].id in next.seen);
    assert forall k :: 0 <= k < |r.plan.rows| ==> next.plan.rows[k] == r.plan.rows[k];
  }

  /** No id is read twice. */
  lemma {:induction false} ReadIdsAreDistinct(t: Text, norm: Norm, spec: Spec, rows: seq<seq<(string, string)>>)
    ensures DistinctRows(ReadRows(t, norm, spec, rows))
  {
    if rows != [] {
      var n := |rows| - 1;
      ReadIdsAreDistinct(t, norm, spec, rows[..n]);
      RowStaysDistinct(t, norm, spec, ReadRows(t, norm, spec, rows[..n]), rows[n], n + 2);
    }
  }

  /** Value `i` is the first that cannot be normalised. */
  ghost predicate FirstBad(norm: Norm, kind: string, raws: seq<string>, i: nat) {
    && i < |raws| && norm(kind, raws[i]) == None
    && forall j :: 0 <= j < i ==> norm(kind, raws[j]).Some?
  }

  lemma FirstBadShifts(norm: Norm, kind: string, raws: seq<string>, i: nat)
    requires raws != [] && norm(kind, raws[0]).Some? && FirstBad(norm, kind, raws[1..], i)
    ensures FirstBad(norm, kind, raws, i + 1)
  {
    forall j | 0 <= j < i + 1 ensures norm(kind, raws[j]).Some? {
      if j > 0 { assert raws[j] == raws[1..][j - 1]; }
    }
  }

  /** An alias column is read value by value, or fails at its first value that cannot be normalised. */
  lemma {:induction false} ReadKindMeans(norm: Norm, kind: string, raws: seq<string>, line: nat)
    ensures match ReadKind(norm, kind, raws, line)
            case Ok(read) =>
              && |read| == |raws|
              && forall i :: 0 <= i < |raws| ==> norm(kind, raws[i]) == Some(read[i].1) && read[i].0 == kind
            case Err(e) =>
              exists i: nat :: FirstBad(norm, kind, raws, i) && e == BadAlias(line, kind, raws[i])
  {
    if raws != [] {
      ReadKindMeans(norm, kind, raws[1..], line);
      var rest := ReadKind(norm, kind, raws[1..], line);
      if norm(kind, raws[0]).None? {
        assert FirstBad(norm, kind, raws, 0);
      } else if rest.Err? {
        var i: nat :| FirstBad(norm, kind, raws[1..], i) && rest.error == BadAlias(line, kind, raws[1..][i]);
        FirstBadShifts(norm, kind, raws, i);
      }
    }
  }

  method ReadFile(t: Text, norm: Norm, spec: Spec, file: File) returns (plan: Plan)
    ensures plan == Read(t, norm, spec, file)
  {
    plan := Plan([], [], []);
    if file.header == [] {
      return plan.(errors := [NoHeader]);
    }
    var header := Names(t, file.header);
    if spec.key !in header {
      return plan.(errors := [NoKeyColumn]);
    }
    var unknown := header - Known(spec);
    if unknown != {} {
      return plan.(errors := [UnknownColumns(unknown)]);
    }
    plan := ReadLines(t, norm, spec, file.rows);
    if plan.rows == [] && plan.errors == [] {
      plan := plan.(errors := [NoRows]);
    }
  }

  // ------------------------------------------------------- writing

  function Render(v: Value): string {
    match v
    case Word(s) => s
    case Labels(items) => Join(items)
    case Flag(on) => if on then "true" else "false"
    case Null => ""
  }

  /** `alias.partition(":")`. */
  function Partition(s: string): (string, string) {
    if s == "" then ("", "")
    else if s[0] == ':' then ("", s[1..])
    else var r := Partition(s[1..]); ([s[0]] + r.0, r.1)
  }

  /** The values of one kind, in order. */
  function ValuesOf(kind: string, aliases: seq<string>): seq<string> {
    if aliases == [] then []
    else var p := Partition(aliases[0]);
         (if p.0 == kind && p.1 != "" then [p.1] else []) + ValuesOf(kind, aliases[1..])
  }

  function CellFor(spec: Spec, row: Listed, name: string): string {
    if name in spec.kinds then Join(ValuesOf(name, row.aliases))
    else if name == spec.key then row.id
    else if name in row.fields then Render(row.fields[name]) else ""
  }

  function Header(spec: Spec): seq<string> { spec.columns + spec.kinds }

  function RowPairs(spec: Spec, row: Listed, names: seq<string>): seq<(string, string)> {
    if names == [] then []
    else RowPairs(spec, row, names[..|names| - 1]) + [(names[|names| - 1], CellFor(spec, row, names[|names| - 1]))]
  }

  function WriteRow(spec: Spec, row: Listed): seq<(string, string)> {
    RowPairs(spec, row, Header(spec))
  }

  function WriteRows(spec: Spec, rows: seq<Listed>): seq<seq<(string, string)>> {
    if rows == [] then [] else WriteRows(spec, rows[..|rows| - 1]) + [WriteRow(spec, rows[|rows| - 1])]
  }

  /** `_write`. */
  function Write(spec: Spec, rows: seq<Listed>): File {
    File(Header(spec), WriteRows(spec, rows))
  }

  lemma RowPairsSnoc(spec: Spec, row: Listed, names: seq<string>, j: nat)
    requires j < |names|
    ensures RowPairs(spec, row, names[..j + 1])
         == RowPairs(spec, row, names[..j]) + [(names[j], CellFor(spec, row, names[j]))]
  {
    assert names[..j + 1][..j] == names[..j];
  }

  lemma WriteRowsSnoc(spec: Spec, rows: seq<Listed>, i: nat)
    requires i < |rows|
    ensures WriteRows(spec, rows[..i + 1]) == WriteRows(spec, rows[..i]) + [WriteRow(spec, rows[i])]
  {
    assert rows[..i + 1][..i] == rows[..i];
  }

  /** The loops of `_write`. */
  method WriteFile(spec: Spec, rows: seq<Listed>) returns (file: File)
    ensures file == Write(spec, rows)
  {
    var header := spec.columns + spec.kinds;
    var written: seq<seq<(string, string)>> := [];
    for i := 0 to |rows|
      invariant written == WriteRows(spec, rows[..i])
    {
      var pairs: seq<(string, string)> := [];
      for j := 0 to |header|
        invariant pairs == RowPairs(spec, rows[i], header[..j])
      {
        RowPairsSnoc(spec, rows[i], header, j);
        pairs := pairs + [(header[j], CellFor(spec, rows[i], header[j]))];
      }
      assert header[..|header|] == header;
      WriteRowsSnoc(spec, rows, i);
      written := written + [pairs];
    }
    assert rows[..|rows|] == rows;
    file := File(header, written);
  }

  // ------------------------------------------------------- the round trip

  /** The words the format itself uses are trimmed and lower-case. */
  ghost predicate Literals(t: Text, spec: Spec) {
    && KeepsSeparators(t)
    && (forall name :: name in Header(spec) ==> name != "" && Fold(t, name) == name)
    && (forall l :: l in LEVELS ==> Fold(t, l) == l)
    && Fold(t, "true") == "true" && Fold(t, "false") == "false" && t.lower("") == ""
    && spec.key in spec.columns && spec.key !in spec.kinds
  }

  /** A column's value as the database holds it. */
  predicate GoodValue(t: Text, spec: Spec, col: string, v: Value) {
    if v.Null? then true
    else if col == "category" || col == "watchlist" then
      v.Labels? && (forall i :: 0 <= i < |v.items| ==> Stored(t, v.items[i])) && Splittable(v.items)
    else if col == "enabled" then v.Flag?
    else if col == spec.level then v.Word? && v.text in LEVELS
    else v.Word? && Trimmed(t, v.text)
  }

  /** A kind's values as the database holds them: stored, splittable and normalised. */
  predicate GoodKind(t: Text, norm: Norm, kind: string, values: seq<string>) {
    && (forall i :: 0 <= i < |values| ==> Stored(t, values[i]) && norm(kind, values[i]) == Some(values[i]))
    && Splittable(values)
  }

  ghost predicate GoodRow(t: Text, norm: Norm, spec: Spec, row: Listed) {
    && row.id != "" && Trimmed(t, row.id)
    && (forall col :: col in spec.columns && col != spec.key
          ==> col in row.fields && GoodValue(t, spec, col, row.fields[col]))
    && (forall kind :: kind in spec.kinds ==> GoodKind(t, norm, kind, ValuesOf(kind, row.aliases)))
  }

  function Tag(kind: string): string -> (string, string) { v => (kind, v) }

  /** The aliases by kind, in the order of the kinds. */
  function ByKind(kinds: seq<string>, aliases: seq<string>): seq<(string, string)> {
    if kinds == [] then [] else Map(Tag(kinds[0]), ValuesOf(kinds[0], aliases)) + ByKind(kinds[1..], aliases)
  }

  /** What an empty cell is read as. */
  function EmptyAs(spec: Spec, col: string): Value {
    if col == "category" || col == "watchlist" then Labels([])
    else if col == "enabled" then Flag(true)
    else if col == spec.level then Word("medium")
    else Word("")
  }

  /** A NULL is written as an empty cell. */
  function ValueReturned(spec: Spec, col: string, v: Value): Value {
    if v.Null? then EmptyAs(spec, col) else v
  }

  /** A column that shares its name with an alias kind is overwritten by the alias column. */
  function Returned(t: Text, spec: Spec, row: Listed): Entry {
    Entry(row.id,
          map col | col in spec.columns && col != spec.key ::
            if col in spec.kinds then ReadField(t, spec, col, Join(ValuesOf(col, row.aliases)))
            else if col in row.fields then ValueReturned(spec, col, row.fields[col]) else Null,
          ByKind(spec.kinds, row.aliases))
  }

  lemma {:induction false} CellsWritten(t: Text, spec: Spec, row: Listed, names: seq<string>, name: string)
    requires forall n :: n in names ==> n != "" && Fold(t, n) == n
    ensures var cells := Cells(t, RowPairs(spec, row, names));
            (name in cells <==> name in names) && (name in cells ==> cells[name] == CellFor(spec, row, name))
  {
    if names != [] {
      var m := |names| - 1;
      var front, last := names[..m], names[m];
      forall n | n in front ensures n != "" && Fold(t, n) == n { assert n in names; }
      CellsWritten(t, spec, row, front, name);
      CellsSnoc(t, RowPairs(spec, row, front), (last, CellFor(spec, row, last)));
      assert last in names && (name in names <==> name in front || name == last);
    }
  }

  lemma CellsSnoc(t: Text, pairs: seq<(string, string)>, p: (string, string))
    ensures Cells(t, pairs + [p]) == if p.0 == "" then Cells(t, pairs) else Cells(t, pairs)[Fold(t, p.0) := p.1]
  {
    assert (pairs + [p])[..|pairs|] == pairs;
  }

  lemma FieldReturns(t: Text, spec: Spec, col: string, v: Value)
    requires Literals(t, spec) && GoodValue(t, spec, col, v)
    ensures ReadField(t, spec, col, Render(v)) == ValueReturned(spec, col, v)
  {
    if v.Null? {
    } else if col == "category" || col == "watchlist" {
      SplitUndoesJoin(t, v.items);
    } else if v.Word? && col != spec.level {
      StripOfTrimmed(t, v.text);
    }
  }

  lemma OneFieldReturns(t: Text, norm: Norm, spec: Spec, row: Listed, cells: map<string, string>, col: string)
    requires Literals(t, spec) && GoodRow(t, norm, spec, row) && col in spec.columns && col != spec.key
    requires forall name :: name in Header(spec) ==> name in cells && cells[name] == CellFor(spec, row, name)
    ensures col in spec.kinds ==> Get(cells, col) == Join(ValuesOf(col, row.aliases))
    ensures col !in spec.kinds
            ==> col in row.fields
                && ReadField(t, spec, col, Get(cells, col)) == ValueReturned(spec, col, row.fields[col])
  {
    assert col in Header(spec);
    if col !in spec.kinds { FieldReturns(t, spec, col, row.fields[col]); }
  }

  lemma FieldsReturn(t: Text, norm: Norm, spec: Spec, row: Listed, cells: map<string, string>)
    requires Literals(t, spec) && GoodRow(t, norm, spec, row)
    requires forall name :: name in Header(spec) ==> name in cells && cells[name] == CellFor(spec, row, name)
    ensures ReadFields(t, spec, cells) == Returned(t, spec, row).fields
  {
    var l, r := ReadFields(t, spec, cells), Returned(t, spec, row).fields;
    assert l.Keys == r.Keys;
    forall col | col in l.Keys ensures l[col] == r[col] {
      OneFieldReturns(t, norm, spec, row, cells, col);
    }
    SameMap(l, r);
  }

  lemma SameMap(l: map<string, Value>, r: map<string, Value>)
    requires l.Keys == r.Keys && forall c :: c in l.Keys ==> l[c] == r[c]
    ensures l == r
  {}

  lemma {:induction false} KindReturns(norm: Norm, kind: string, values: seq<string>, line: nat)
    requires forall i :: 0 <= i < |values| ==> norm(kind, values[i]) == Some(values[i])
    ensures ReadKind(norm, kind, values, line) == Ok(Map(Tag(kind), values))
  {
    if values != [] { KindReturns(norm, kind, values[1..], line); }
  }

  lemma {:induction false} AliasesReturn(
    t: Text, norm: Norm, kinds: seq<string>, cells: map<string, string>, aliases: seq<string>, line: nat)
    requires KeepsSeparators(t)
    requires forall i :: 0 <= i < |kinds| ==> Get(cells, kinds[i]) == Join(ValuesOf(kinds[i], aliases))
    requires forall i :: 0 <= i < |kinds| ==> GoodKind(t, norm, kinds[i], ValuesOf(kinds[i], aliases))
    ensures ReadAliases(t, norm, kinds, cells, line) == Ok(ByKind(kinds, aliases))
    decreases kinds
  {
    if kinds != [] {
      SplitUndoesJoin(t, ValuesOf(kinds[0], aliases));
      KindReturns(norm, kinds[0], ValuesOf(kinds[0], aliases), line);
      AliasesReturn(t, norm, kinds[1..], cells, aliases, line);
    }
  }

  /** One good row that is not a repetition is read as it was written. */
  lemma RowReturns(t: Text, norm: Norm, spec: Spec, r: Reading, row: Listed, line: nat)
    requires Literals(t, spec) && GoodRow(t, norm, spec, row) && row.id !in r.seen
    ensures var next := ReadRow(t, norm, spec, r, WriteRow(spec, row), line);
            && next.plan.rows == r.plan.rows + [Returned(t, spec, row)]
            && next.plan.errors == r.plan.errors
            && next.seen == r.seen[row.id := line]
  {
    var cells := Cells(t, WriteRow(spec, row));
    forall name | name in Header(spec) ensures name in cells && cells[name] == CellFor(spec, row, name) {
      CellsWritten(t, spec, row, Header(spec), name);
    }
    assert spec.key in Header(spec);
    StripOfTrimmed(t, row.id);
    forall i | 0 <= i < |spec.kinds| ensures Get(cells, spec.kinds[i]) == Join(ValuesOf(spec.kinds[i], row.aliases)) {
      assert spec.kinds[i] in Header(spec);
    }
    AliasesReturn(t, norm, spec.kinds, cells, row.aliases, line);
    FieldsReturn(t, norm, spec, row, cells);
  }

  ghost predicate DistinctIds(rows: seq<Listed>) {
    forall i, j :: 0 <= i < j < |rows| ==> rows[i].id != rows[j].id
  }

  ghost predicate GoodRows(t: Text, norm: Norm, spec: Spec, rows: seq<Listed>) {
    forall i :: 0 <= i < |rows| ==> GoodRow(t, norm, spec, rows[i])
  }

  function ReturnAll(t: Text, spec: Spec, rows: seq<Listed>): seq<Entry> {
    if rows == [] then [] else ReturnAll(t, spec, rows[..|rows| - 1]) + [Returned(t, spec, rows[|rows| - 1])]
  }

  lemma {:induction false} ReturnAllAt(t: Text, spec: Spec, rows: seq<Listed>)
    ensures |ReturnAll(t, spec, rows)| == |rows|
    ensures forall i :: 0 <= i < |rows| ==> ReturnAll(t, spec, rows)[i] == Returned(t, spec, rows[i])
  {
    if rows != [] { ReturnAllAt(t, spec, rows[..|rows| - 1]); }
  }

  function IdsOf(rows: seq<Listed>): set<string> {
    if rows == [] then {} else IdsOf(rows[..|rows| - 1]) + {rows[|rows| - 1].id}
  }

  lemma {:induction false} IdsOfIn(rows: seq<Listed>, id: string)
    requires forall i :: 0 <= i < |rows| ==> rows[i].id != id
    ensures id !in IdsOf(rows)
  {
    if rows != [] { IdsOfIn(rows[..|rows| - 1], id); }
  }

  lemma {:induction false} RowsReturn(t: Text, norm: Norm, spec: Spec, rows: seq<Listed>)
    requires Literals(t, spec) && DistinctIds(rows) && GoodRows(t, norm, spec, rows)
    ensures var r := ReadRows(t, norm, spec, WriteRows(spec, rows));
            r.plan.rows == ReturnAll(t, spec, rows) && r.plan.errors == [] && r.seen.Keys == IdsOf(rows)
    ensures |WriteRows(spec, rows)| == |rows|
  {
    if rows != [] {
      var m := |rows| - 1;
      RowsReturn(t, norm, spec, rows[..m]);
      var written := WriteRows(spec, rows);
      assert written[..|written| - 1] == WriteRows(spec, rows[..m]);
      IdsOfIn(rows[..m], rows[m].id);
      RowReturns(t, norm, spec, ReadRows(t, norm, spec, WriteRows(spec, rows[..m])), rows[m], m + 2);
    }
  }

  lemma HeaderIsKnown(t: Text, spec: Spec)
    requires Literals(t, spec)
    ensures Header(spec) != [] && spec.key in Names(t, Header(spec)) && Names(t, Header(spec)) - Known(spec) == {}
  {
    assert spec.key in Header(spec) && Fold(t, spec.key) == spec.key;
    forall name | name in Names(t, Header(spec)) ensures name in Known(spec) {
      assert name in Header(spec);
    }
  }

  /**
   * Reading an exported registry gives every row back, in order and without errors, with its aliases
   * grouped by kind. An empty registry is the exception: its export is refused as having no rows.
   */
  lemma ExportThenImport(t: Text, norm: Norm, spec: Spec, rows: seq<Listed>)
    requires Literals(t, spec) && DistinctIds(rows) && GoodRows(t, norm, spec, rows)
    ensures var plan := Read(t, norm, spec, Write(spec, rows));
            && |plan.rows| == |rows|
            && (forall i :: 0 <= i < |rows| ==> plan.rows[i] == Returned(t, spec, rows[i]))
            && plan.errors == if rows == [] then [NoRows] else []
  {
    RowsReturn(t, norm, spec, rows);
    ReturnAllAt(t, spec, rows);
    HeaderIsKnown(t, spec);
  }

  /** The fields of a row that are stored under the columns, all of them and no others. */
  predicate AllColumns(spec: Spec, row: Listed) {
    row.fields.Keys == (set c | c in spec.columns && c != spec.key)
  }

  /** A field returns exactly when it is not NULL. */
  lemma FieldIsReturned(t: Text, norm: Norm, spec: Spec, row: Listed, col: string)
    requires GoodRow(t, norm, spec, row) && AllColumns(spec, row)
    ensures Returned(t, spec, row).fields.Keys == row.fields.Keys
    ensures col in row.fields && col !in spec.kinds ==>
              && Returned(t, spec, row).fields[col] == ValueReturned(spec, col, row.fields[col])
              && (Returned(t, spec, row).fields[col] == row.fields[col] <==> !row.fields[col].Null?)
  {}

  /**
   * Where no column shares its name with an alias kind,
   * as for assets, every field returns exactly when none is NULL.
   */
  lemma FieldsAreReturned(t: Text, norm: Norm, spec: Spec, row: Listed)
    requires GoodRow(t, norm, spec, row) && AllColumns(spec, row)
    requires forall c :: c in spec.columns ==> c !in spec.kinds
    ensures Returned(t, spec, row).fields == row.fields <==> forall c :: c in row.fields ==> !row.fields[c].Null?
  {
    var r := Returned(t, spec, row).fields;
    FieldIsReturned(t, norm, spec, row, spec.key);
    forall c ensures c in row.fields ==> (r[c] == row.fields[c] <==> !row.fields[c].Null?) {
      FieldIsReturned(t, norm, spec, row, c);
    }
    if forall c :: c in row.fields ==> !row.fields[c].Null? {
      assert forall c :: c in row.fields ==> r[c] == row.fields[c];
    }
  }

  lemma AssetColumnsAreNotKinds()
    ensures forall c :: c in ASSETS.columns ==> c !in ASSETS.kinds
    ensures NoDuplicates(ASSETS.kinds) && NoDuplicates(IDENTITIES.kinds)
  {}

  lemma EmailIsBoth(c: string)
    ensures "email" in IDENTITIES.columns && "email" in IDENTITIES.kinds
    ensures c in IDENTITIES.columns && c != "email" ==> c !in IDENTITIES.kinds
  {
    var columns, kinds := IDENTITIES.columns, IDENTITIES.kinds;
    assert columns[6] == "email" && kinds[0] == "email";
  }

  lemma EmailReturns(t: Text, norm: Norm, row: Listed)
    requires Literals(t, IDENTITIES) && GoodRow(t, norm, IDENTITIES, row)
    ensures "email" in Returned(t, IDENTITIES, row).fields
    ensures Returned(t, IDENTITIES, row).fields["email"] == Word(Join(ValuesOf("email", row.aliases)))
  {
    var values := ValuesOf("email", row.aliases);
    EmailIsBoth("email");
    assert GoodKind(t, norm, "email", values);
    if values != [] { JoinEnds(t, values); }
    StripOfTrimmed(t, Join(values));
  }

  /**
   * For identities the `email` column and the `email` aliases are one cell, written from the aliases:
   * every other field returns unless it is NULL, and `email` returns exactly when it is the aliases
   * joined.
   */
  lemma IdentityFieldsReturn(t: Text, norm: Norm, row: Listed)
    requires Literals(t, IDENTITIES) && GoodRow(t, norm, IDENTITIES, row) && AllColumns(IDENTITIES, row)
    ensures Returned(t, IDENTITIES, row).fields.Keys == row.fields.Keys && "email" in row.fields
    ensures Returned(t, IDENTITIES, row).fields["email"] == Word(Join(ValuesOf("email", row.aliases)))
    ensures forall c :: c in row.fields && c != "email" ==>
              Returned(t, IDENTITIES, row).fields[c] == ValueReturned(IDENTITIES, c, row.fields[c])
    ensures Returned(t, IDENTITIES, row).fields == row.fields
       <==> row.fields["email"] == Word(Join(ValuesOf("email", row.aliases)))
            && forall c :: c in row.fields && c != "email" ==> !row.fields[c].Null?
  {
    EmailReturns(t, norm, row);
    FieldIsReturned(t, norm, IDENTITIES, row, "email");
    var r := Returned(t, IDENTITIES, row).fields;
    forall c | c in row.fields && c != "email"
      ensures r[c] == ValueReturned(IDENTITIES, c, row.fields[c]) && (r[c] == row.fields[c] <==> !row.fields[c].Null?)
    {
      EmailIsBoth(c);
      FieldIsReturned(t, norm, IDENTITIES, row, c);
    }
    SameWhereSame(r, row.fields, "email");
  }

  lemma SameWhereSame(r: map<string, Value>, fields: map<string, Value>, col: string)
    requires r.Keys == fields.Keys && col in fields
    requires forall c :: c in fields && c != col ==> (r[c] == fields[c] <==> !fields[c].Null?)
    ensures r == fields <==> r[col] == fields[col] && forall c :: c in fields && c != col ==> !fields[c].Null?
  {
    if r[col] == fields[col] && forall c :: c in fields && c != col ==> !fields[c].Null? {
      assert forall c :: c in fields ==> r[c] == fields[c];
    }
  }

  // ------------------------------------------------------- fields of any value

  /** A value of any kind returns from its cell exactly when it is not NULL and is what its column holds. */
  lemma FieldReturnsExactly(t: Text, spec: Spec, col: string, v: Value)
    requires Literals(t, spec) && LowerIsTidy(t)
    ensures ReadField(t, spec, col, Render(v)) == v <==> !v.Null? && GoodValue(t, spec, col, v)
  {
    if col == "category" || col == "watchlist" {
      if v.Labels? { ListReturns(t, v.items); }
    } else if col != "enabled" && col != spec.level && v.Word? {
      StripIsTrimmed(t, v.text);
      if Trimmed(t, v.text) { StripOfTrimmed(t, v.text); }
    }
  }

  /** So it is in a whole row, whatever its other fields, its id and its aliases are. */
  lemma RowFieldReturns(t: Text, spec: Spec, row: Listed, col: string)
    requires Literals(t, spec) && LowerIsTidy(t)
    requires col in spec.columns && col != spec.key && col !in spec.kinds && col in row.fields
    ensures ReadFields(t, spec, Cells(t, WriteRow(spec, row)))[col] == row.fields[col]
       <==> !row.fields[col].Null? && GoodValue(t, spec, col, row.fields[col])
  {
    assert col in Header(spec);
    CellsWritten(t, spec, row, Header(spec), col);
    FieldReturnsExactly(t, spec, col, row.fields[col]);
  }

  /** An identity with an e-mail address and no alias. */
  function Ann(address: string): Listed {
    var fields := map[
      "display_name" := Word(""), "priority" := Word("medium"), "department" := Word(""), "manager" := Word(""),
      "title" := Word(""), "email" := Word(address), "watchlist" := Labels([]), "enabled" := Flag(true),
      "notes" := Word("")];
    Listed("ann", fields, [])
  }

  lemma AnnIsGood(t: Text, address: string, col: string)
    requires col in IDENTITIES.columns && col != "identity_id" && Trimmed(t, address)
    ensures col in Ann(address).fields && GoodValue(t, IDENTITIES, col, Ann(address).fields[col])
  {
    assert "medium" == LEVELS[2];
  }

  lemma AnnIsGoodRow(t: Text, norm: Norm, address: string)
    requires Trimmed(t, "ann") && Trimmed(t, address)
    ensures GoodRow(t, norm, IDENTITIES, Ann(address))
  {
    forall col | col in IDENTITIES.columns && col != "identity_id"
      ensures col in Ann(address).fields && GoodValue(t, IDENTITIES, col, Ann(address).fields[col])
    {
      AnnIsGood(t, address, col);
    }
  }

  /** Whatever her address, it does not survive export and import. */
  lemma EmailIsLost(t: Text, norm: Norm, address: string)
    requires Literals(t, IDENTITIES) && Trimmed(t, "ann") && Trimmed(t, address)
    ensures var plan := Read(t, norm, IDENTITIES, Write(IDENTITIES, [Ann(address)]));
            && plan.errors == [] && |plan.rows| == 1 && plan.rows[0].id == "ann"
            && "email" in plan.rows[0].fields && plan.rows[0].fields["email"] == Word("")
  {
    AnnIsGoodRow(t, norm, address);
    ExportThenImport(t, norm, IDENTITIES, [Ann(address)]);
    EmailReturns(t, norm, Ann(address));
  }

  // ------------------------------------------------------- the aliases, up to order

  function Pairs(aliases: seq<string>): seq<(string, string)> {
    if aliases == [] then [] else [Partition(aliases[0])] + Pairs(aliases[1..])
  }

  lemma {:induction false} KindCounts(kind: string, aliases: seq<string>, p: (string, string))
    requires p.1 != ""
    ensures multiset(Map(Tag(kind), ValuesOf(kind, aliases)))[p]
         == if p.0 == kind then multiset(Pairs(aliases))[p] else 0
  {
    if aliases != [] {
      var q, rest := Partition(aliases[0]), ValuesOf(kind, aliases[1..]);
      KindCounts(kind, aliases[1..], p);
      assert Pairs(aliases) == [q] + Pairs(aliases[1..]);
      if q.0 == kind && q.1 != "" {
        assert ([q.1] + rest)[1..] == rest;
        assert Map(Tag(kind), [q.1] + rest) == [(kind, q.1)] + Map(Tag(kind), rest);
        assert ValuesOf(kind, aliases) == [q.1] + rest;
        assert q == (kind, q.1);
      } else {
        assert ValuesOf(kind, aliases) == rest;
      }
    }
  }

  lemma TailDistinct(kinds: seq<string>)
    requires kinds != [] && NoDuplicates(kinds)
    ensures NoDuplicates(kinds[1..]) && kinds[0] !in kinds[1..]
    ensures forall k :: k in kinds <==> k == kinds[0] || k in kinds[1..]
  {
    assert kinds == [kinds[0]] + kinds[1..];
  }

  lemma {:induction false} ByKindCounts(kinds: seq<string>, aliases: seq<string>, p: (string, string))
    requires p.1 != "" && NoDuplicates(kinds)
    ensures multiset(ByKind(kinds, aliases))[p] == if p.0 in kinds then multiset(Pairs(aliases))[p] else 0
  {
    if kinds != [] {
      var first, rest := Map(Tag(kinds[0]), ValuesOf(kinds[0], aliases)), ByKind(kinds[1..], aliases);
      KindCounts(kinds[0], aliases, p);
      TailDistinct(kinds);
      ByKindCounts(kinds[1..], aliases, p);
      assert multiset(first + rest)[p] == multiset(first)[p] + multiset(rest)[p];
    }
  }

  lemma {:induction false} NoBlankValues(kinds: seq<string>, aliases: seq<string>)
    ensures forall p :: p in ByKind(kinds, aliases) ==> p.1 != ""
  {
    if kinds != [] {
      NoBlankValues(kinds[1..], aliases);
      ValuesFilled(kinds[0], aliases);
      var vs, first := ValuesOf(kinds[0], aliases), Map(Tag(kinds[0]), ValuesOf(kinds[0], aliases));
      forall i | 0 <= i < |first| ensures first[i].1 != "" { assert vs[i] in vs; }
    }
  }

  lemma {:induction false} ValuesFilled(kind: string, aliases: seq<string>)
    ensures forall v :: v in ValuesOf(kind, aliases) ==> v != ""
  {
    if aliases != [] { ValuesFilled(kind, aliases[1..]); }
  }

  /** Grouping by kind returns every alias of a known kind, as often as it was listed. */
  lemma AliasesUpToOrder(kinds: seq<string>, aliases: seq<string>)
    requires NoDuplicates(kinds)
    requires forall p :: p in Pairs(aliases) ==> p.0 in kinds && p.1 != ""
    ensures multiset(ByKind(kinds, aliases)) == multiset(Pairs(aliases))
  {
    var l, r := multiset(ByKind(kinds, aliases)), multiset(Pairs(aliases));
    NoBlankValues(kinds, aliases);
    forall p ensures l[p] == r[p] {
      if p.1 != "" {
        ByKindCounts(kinds, aliases, p);
        assert p in Pairs(aliases) <==> r[p] > 0;
      } else {
        assert p !in ByKind(kinds, aliases) && p !in Pairs(aliases);
      }
    }
  }

  /** An alias as the database writes it is taken apart at the right colon: kinds hold none. */
  lemma {:induction false} PartitionUndoes(kind: string, value: string)
    requires ':' !in kind
    ensures Partition(kind + ":" + value) == (kind, value)
  {
    var s := kind + ":" + value;
    if kind == "" {
      assert s[1..] == value;
    } else {
      assert s[1..] == kind[1..] + ":" + value;
      PartitionUndoes(kind[1..], value);
      assert kind == [kind[0]] + kind[1..];
    }
  }
}
