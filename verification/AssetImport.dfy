/** app/db.py: importing assets (or identities) with their aliases, in one transaction. */
module AssetImports {
  import opened Prelude

  /** An alias as stored: its kind and its normalised value. */
  type AliasKey = (string, string)

  /** One row of the file. Without aliases the row edits fields only. */
  datatype Row = Row(id: string, fields: string, aliases: Option<seq<AliasKey>>)

  /** `aliases` is keyed by (kind, value), its primary key, and holds the owner. */
  datatype Registry = Registry(assets: map<string, string>, aliases: map<AliasKey, string>)

  /**
   * Text clean-up: `trim` strips, `fold` strips and lower-cases,
   * `clean` is the column clean-up, `norm` normalises a value of a kind.
   */
  datatype Norms = Norms(kinds: seq<string>, trim: string -> string, fold: string -> string, clean: string -> string,
                         norm: (string, string) -> Option<string>)

  datatype Error = UnknownKind(kind: string) | Invalid(kind: string, value: string)
    | HeldBy(key: AliasKey, owner: string)

  function Canon(n: Norms, a: AliasKey): Result<AliasKey, Error> {
    var kind := n.fold(a.0);
    if kind !in n.kinds then Err(UnknownKind(a.0))
    else match n.norm(kind, a.1)
      case None => Err(Invalid(kind, a.1))
      case Some(v) => if v == "" then Err(Invalid(kind, a.1)) else Ok((kind, v))
  }

  /** `_write_aliases`: the first alias that is malformed or another owner's raises. */
  function WriteAliases(n: Norms, table: map<AliasKey, string>, owner: string, list: seq<AliasKey>)
    : Result<map<AliasKey, string>, Error>
    decreases list
  {
    if list == [] then Ok(table)
    else match Canon(n, list[0])
      case Err(e) => Err(e)
      case Ok(key) =>
        if key in table && table[key] != owner then Err(HeldBy(key, table[key]))
        else WriteAliases(n, if key in table then table else table[key := owner], owner, list[1..])
  }

  /** DELETE FROM asset_aliases WHERE asset_id = owner. */
  function WithoutOwner(table: map<AliasKey, string>, owner: string): map<AliasKey, string> {
    map k | k in table && table[k] != owner :: table[k]
  }

  function RowId(n: Norms, r: Row): string { n.trim(r.id) }

  function ApplyRow(n: Norms, reg: Registry, r: Row): Result<Registry, Error> {
    var id := RowId(n, r);
    var assets := reg.assets[id := n.clean(r.fields)];
    match r.aliases
    case None => Ok(Registry(assets, reg.aliases))
    case Some(list) =>
      match WriteAliases(n, WithoutOwner(reg.aliases, id), id, list)
      case Err(e) => Err(e)
      case Ok(aliases) => Ok(Registry(assets, aliases))
  }

  function ApplyRows(n: Norms, reg: Registry, rows: seq<Row>): Result<Registry, Error> {
    if rows == [] then Ok(reg)
    else match ApplyRows(n, reg, rows[..|rows| - 1])
      case Err(e) => Err(e)
      case Ok(before) => ApplyRow(n, before, rows[|rows| - 1])
  }

  function Ids(n: Norms, rows: seq<Row>): set<string> {
    set r | r in rows :: RowId(n, r)
  }

  /** With `replace`, assets the file does not name go, and their aliases with them (ON DELETE CASCADE). */
  function Retired(n: Norms, reg: Registry, rows: seq<Row>, replacing: bool): Registry {
    if !replacing || rows == [] then reg
    else Registry(map id | id in reg.assets && id in Ids(n, rows) :: reg.assets[id],
                  map k | k in reg.aliases && reg.aliases[k] in Ids(n, rows) :: reg.aliases[k])
  }

  /** How many assets that retires. */
  function Removed(n: Norms, reg: Registry, rows: seq<Row>, replacing: bool): nat {
    if !replacing || rows == [] then 0 else |set id | id in reg.assets && id !in Ids(n, rows)|
  }

  function Import(n: Norms, reg: Registry, rows: seq<Row>, replacing: bool): Result<Registry, Error> {
    ApplyRows(n, Retired(n, reg, rows, replacing), rows)
  }

  /** Every alias belongs to an asset that is there. */
  ghost predicate Referential(reg: Registry) {
    forall k :: k in reg.aliases ==> reg.aliases[k] in reg.assets
  }

  // ------------------------------------------------------- the loops

  class AssetStore {
    var assets: map<string, string>
    var aliases: map<AliasKey, string>

    function Now(): Registry
      reads this
    {
      Registry(assets, aliases)
    }

    /** `_write_aliases`; on an error the loop stops where it is. */
    method InsertAliases(n: Norms, owner: string, list: seq<AliasKey>) returns (r: Result<nat, Error>)
      modifies this`aliases
      ensures match WriteAliases(n, old(aliases), owner, list)
              case Ok(t) => r == Ok(|list|) && aliases == t
              case Err(e) => r == Err(e)
    {
      for i := 0 to |list|
        invariant WriteAliases(n, old(aliases), owner, list) == WriteAliases(n, aliases, owner, list[i..])
      {
        assert list[i..][1..] == list[i + 1..];
        var c := Canon(n, list[i]);
        if c.Err? {
          return Err(c.error);
        }
        if c.value in aliases && aliases[c.value] != owner {
          return Err(HeldBy(c.value, aliases[c.value]));
        }
        if c.value !in aliases {
          aliases := aliases[c.value := owner];
        }
      }
      return Ok(|list|);
    }

    /** `apply_asset_import`: one transaction, rolled back by the first error. */
    method ApplyAssetImport(n: Norms, rows: seq<Row>, replacing: bool) returns (r: Result<(nat, nat), Error>)
      modifies this
      ensures match Import(n, old(Now()), rows, replacing)
              case Ok(after) => r == Ok((|rows|, Removed(n, old(Now()), rows, replacing))) && Now() == after
              case Err(e) => r == Err(e) && Now() == old(Now())
    {
      var saved := (assets, aliases);
      var start, removed := Retired(n, Now(), rows, replacing), Removed(n, Now(), rows, replacing);
      assets, aliases := start.assets, start.aliases;
      for i := 0 to |rows|
        invariant ApplyRows(n, start, rows[..i]) == Ok(Now())
      {
        assert rows[..i + 1][..i] == rows[..i] && rows[..i + 1][i] == rows[i];
        var id := RowId(n, rows[i]);
        assets := assets[id := n.clean(rows[i].fields)];
        if rows[i].aliases.Some? {
          aliases := WithoutOwner(aliases, id);
          var w := InsertAliases(n, id, rows[i].aliases.value);
          if w.Err? {
            ErrorStays(n, start, rows, i + 1);
            assets, aliases := saved.0, saved.1;
            return Err(w.error);
          }
        }
      }
      assert rows[..|rows|] == rows;
      return Ok((|rows|, removed));
    }
  }

  lemma {:induction false} ErrorStays(n: Norms, reg: Registry, rows: seq<Row>, i: nat)
    requires i <= |rows| && ApplyRows(n, reg, rows[..i]).Err?
    ensures ApplyRows(n, reg, rows) == ApplyRows(n, reg, rows[..i])
    decreases |rows| - i
  {
    if i == |rows| {
      assert rows[..i] == rows;
    } else {
      assert rows[..i + 1][..i] == rows[..i];
      ErrorStays(n, reg, rows, i + 1);
    }
  }

  // ------------------------------------------------------- one alias list

  /** The aliases a list asks for. */
  function Wanted(n: Norms, list: seq<AliasKey>): set<AliasKey> {
    set a | a in list && Canon(n, a).Ok? :: Canon(n, a).value
  }

  /** Every alias of the list is well formed and free or the owner's own. */
  ghost predicate Claimable(n: Norms, table: map<AliasKey, string>, owner: string, list: seq<AliasKey>) {
    forall a :: a in list ==> Canon(n, a).Ok? && (Canon(n, a).value in table ==> table[Canon(n, a).value] == owner)
  }

  /** A list is accepted exactly when all of it is claimable beforehand; then it is added, and nothing else moves. */
  lemma {:induction false} AliasesWritten(n: Norms, table: map<AliasKey, string>, owner: string, list: seq<AliasKey>)
    ensures WriteAliases(n, table, owner, list).Ok? <==> Claimable(n, table, owner, list)
    ensures WriteAliases(n, table, owner, list).Ok? ==>
              var t := WriteAliases(n, table, owner, list).value;
              forall k :: (k in t <==> k in table || k in Wanted(n, list))
                          && (k in t ==> t[k] == if k in table then table[k] else owner)
    decreases list
  {
    if list != [] {
      assert list == [list[0]] + list[1..];
      if Canon(n, list[0]).Ok? {
        var key := Canon(n, list[0]).value;
        var next := if key in table then table else table[key := owner];
        if !(key in table && table[key] != owner) {
          AliasesWritten(n, next, owner, list[1..]);
          assert Wanted(n, list) == {key} + Wanted(n, list[1..]);
          assert forall a :: a in list[1..] ==> a in list;
        }
      }
    }
  }

  // ------------------------------------------------------- the whole file

  /** What an owner holds. */
  function Holds(reg: Registry, owner: string): set<AliasKey> {
    set k | k in reg.aliases && reg.aliases[k] == owner
  }

  /** The alias list of the last row of that id that has one. */
  function LastAliases(n: Norms, rows: seq<Row>, id: string): Option<seq<AliasKey>> {
    if rows == [] then None
    else var r := rows[|rows| - 1];
         if RowId(n, r) == id && r.aliases.Some? then r.aliases else LastAliases(n, rows[..|rows| - 1], id)
  }

  function LastFields(n: Norms, rows: seq<Row>, id: string): Option<string> {
    if rows == [] then None
    else var r := rows[|rows| - 1];
         if RowId(n, r) == id then Some(n.clean(r.fields)) else LastFields(n, rows[..|rows| - 1], id)
  }

  /** What an owner holds once some rows have been applied. */
  function HoldsAfter(n: Norms, start: Registry, rows: seq<Row>, id: string): set<AliasKey> {
    match LastAliases(n, rows, id)
    case None => Holds(start, id)
    case Some(list) => Wanted(n, list)
  }

  lemma RowApplied(n: Norms, reg: Registry, r: Row)
    requires ApplyRow(n, reg, r).Ok?
    ensures var after := ApplyRow(n, reg, r).value;
            && after.assets == reg.assets[RowId(n, r) := n.clean(r.fields)]
            && forall id :: Holds(after, id)
                      == if id == RowId(n, r) && r.aliases.Some? then Wanted(n, r.aliases.value) else Holds(reg, id)
  {
    if r.aliases.Some? {
      var owner, after := RowId(n, r), ApplyRow(n, reg, r).value;
      AliasesWritten(n, WithoutOwner(reg.aliases, owner), owner, r.aliases.value);
      forall id ensures Holds(after, id) == if id == owner then Wanted(n, r.aliases.value) else Holds(reg, id) {
        forall k ensures k in Holds(after, id)
                  <==> k in (if id == owner then Wanted(n, r.aliases.value) else Holds(reg, id)) {
          WantedIsFree(n, reg, owner, r.aliases.value, k);
        }
      }
    }
  }

  lemma WantedIsFree(n: Norms, reg: Registry, owner: string, list: seq<AliasKey>, k: AliasKey)
    requires Claimable(n, WithoutOwner(reg.aliases, owner), owner, list)
    ensures k in Wanted(n, list) && k in reg.aliases ==> reg.aliases[k] == owner
  {}

  /**
   * After an accepted import every asset holds exactly the normalised aliases of its last row that
   * gave any, or what it held at the start; its fields are those of its last row.
   */
  lemma {:induction false} RowsApplied(n: Norms, start: Registry, rows: seq<Row>)
    requires ApplyRows(n, start, rows).Ok?
    ensures var after := ApplyRows(n, start, rows).value;
            && (forall id :: Holds(after, id) == HoldsAfter(n, start, rows, id))
            && (forall id :: if LastFields(n, rows, id).Some?
                      then id in after.assets && after.assets[id] == LastFields(n, rows, id).value
                      else (id in after.assets <==> id in start.assets)
                           && (id in start.assets ==> after.assets[id] == start.assets[id]))
  {
    if rows != [] {
      var m := |rows| - 1;
      RowsApplied(n, start, rows[..m]);
      RowApplied(n, ApplyRows(n, start, rows[..m]).value, rows[m]);
    }
  }

  lemma {:induction false} LastFieldsNamed(n: Norms, rows: seq<Row>, id: string)
    ensures LastFields(n, rows, id).Some? <==> id in Ids(n, rows)
    ensures id !in Ids(n, rows) ==> LastAliases(n, rows, id).None?
  {
    if rows != [] {
      var m := |rows| - 1;
      assert rows == rows[..m] + [rows[m]];
      LastFieldsNamed(n, rows[..m], id);
      assert Ids(n, rows) == Ids(n, rows[..m]) + {RowId(n, rows[m])};
    }
  }

  /**
   * The import as a whole. Named assets hold exactly what their rows say; an asset the file does not
   * name keeps its row and its aliases, or loses both when replacing.
   */
  lemma ImportMeans(n: Norms, reg: Registry, rows: seq<Row>, replacing: bool, id: string)
    requires Import(n, reg, rows, replacing).Ok?
    ensures var after := Import(n, reg, rows, replacing).value;
            if id in Ids(n, rows) then
              && id in after.assets && Some(after.assets[id]) == LastFields(n, rows, id)
              && Holds(after, id)
                 == (match LastAliases(n, rows, id) case Some(list) => Wanted(n, list) case None => Holds(reg, id))
            else if replacing && rows != [] then
              id !in after.assets && Holds(after, id) == {}
            else
              && (id in after.assets <==> id in reg.assets) && (id in reg.assets ==> after.assets[id] == reg.assets[id])
              && Holds(after, id) == Holds(reg, id)
  {
    var start := Retired(n, reg, rows, replacing);
    RowsApplied(n, start, rows);
    LastFieldsNamed(n, rows, id);
    assert id in Ids(n, rows) || !replacing || rows == [] ==> Holds(start, id) == Holds(reg, id);
  }

  /** The number of removed assets is the number of those that were there and are gone. */
  lemma RemovedMeans(n: Norms, reg: Registry, rows: seq<Row>, replacing: bool)
    requires Import(n, reg, rows, replacing).Ok?
    ensures Removed(n, reg, rows, replacing)
         == |reg.assets.Keys - Import(n, reg, rows, replacing).value.assets.Keys|
  {
    var gone := reg.assets.Keys - Import(n, reg, rows, replacing).value.assets.Keys;
    forall id ensures id in gone <==> id in reg.assets && replacing && rows != [] && id !in Ids(n, rows) {
      ImportMeans(n, reg, rows, replacing, id);
    }
    if replacing && rows != [] {
      assert gone == set id | id in reg.assets && id !in Ids(n, rows);
    } else {
      assert gone == {};
    }
  }

  /** An alias is stored under its folded kind, one of the known ones, and its non-empty normalised value. */
  lemma CanonMeans(n: Norms, a: AliasKey, k: AliasKey)
    ensures Canon(n, a) == Ok(k) <==> k.0 == n.fold(a.0) && k.0 in n.kinds && n.norm(k.0, a.1) == Some(k.1) && k.1 != ""
    ensures Canon(n, a) == Err(UnknownKind(a.0)) <==> n.fold(a.0) !in n.kinds
    ensures Canon(n, a).Err? && n.fold(a.0) in n.kinds ==> Canon(n, a).error == Invalid(n.fold(a.0), a.1)
  {}

  /** The fields an asset ends with are those of the last row with its id. */
  lemma {:induction false} LastRowDecides(n: Norms, rows: seq<Row>, i: nat)
    requires i < |rows| && forall j :: i < j < |rows| ==> n.trim(rows[j].id) != n.trim(rows[i].id)
    ensures LastFields(n, rows, n.trim(rows[i].id)) == Some(n.clean(rows[i].fields))
  {
    var m := |rows| - 1;
    if i < m {
      assert rows[..m][i] == rows[i] && forall j :: i < j < m ==> rows[..m][j] == rows[j];
      LastRowDecides(n, rows[..m], i);
    }
  }

  /** The aliases are those of the last row with its id that lists any. */
  lemma {:induction false} LastListDecides(n: Norms, rows: seq<Row>, i: nat)
    requires i < |rows| && rows[i].aliases.Some?
    requires forall j :: i < j < |rows| && rows[j].aliases.Some? ==> n.trim(rows[j].id) != n.trim(rows[i].id)
    ensures LastAliases(n, rows, n.trim(rows[i].id)) == rows[i].aliases
  {
    var m := |rows| - 1;
    if i < m {
      assert rows[..m][i] == rows[i] && forall j :: i < j < m ==> rows[..m][j] == rows[j];
      LastListDecides(n, rows[..m], i);
    }
  }

  /** No alias is left without its asset. */
  lemma ImportKeepsReferential(n: Norms, reg: Registry, rows: seq<Row>, replacing: bool)
    requires Referential(reg) && Import(n, reg, rows, replacing).Ok?
    ensures Referential(Import(n, reg, rows, replacing).value)
  {
    var after := Import(n, reg, rows, replacing).value;
    forall k | k in after.aliases ensures after.aliases[k] in after.assets {
      var id := after.aliases[k];
      assert k in Holds(after, id);
      ImportMeans(n, reg, rows, replacing, id);
      if id !in Ids(n, rows) { assert k in Holds(reg, id); }
    }
  }

  // ------------------------------------------------------- when an import is accepted

  /** With these rows applied, every alias the row lists is well formed and held by no other asset. */
  ghost predicate ClaimableAfter(n: Norms, start: Registry, before: seq<Row>, r: Row) {
    r.aliases.Some? ==>
      && (forall a :: a in r.aliases.value ==> Canon(n, a).Ok?)
      && (forall a, other :: a in r.aliases.value && other != RowId(n, r) ==>
            Canon(n, a).value !in HoldsAfter(n, start, before, other))
  }

  ghost predicate RowClaimable(n: Norms, start: Registry, rows: seq<Row>, i: nat)
    requires i < |rows|
  {
    ClaimableAfter(n, start, rows[..i], rows[i])
  }

  lemma OthersAreKept(reg: Registry, owner: string, other: string, k: AliasKey)
    requires other != owner && k in Holds(reg, other)
    ensures k in WithoutOwner(reg.aliases, owner) && WithoutOwner(reg.aliases, owner)[k] == other
  {}

  lemma RowAccepted(n: Norms, start: Registry, before: seq<Row>, reg: Registry, r: Row)
    requires forall id :: Holds(reg, id) == HoldsAfter(n, start, before, id)
    ensures ApplyRow(n, reg, r).Ok? <==> ClaimableAfter(n, start, before, r)
  {
    if r.aliases.Some? {
      var owner, list := RowId(n, r), r.aliases.value;
      var freed := WithoutOwner(reg.aliases, owner);
      AliasesWritten(n, freed, owner, list);
      if Claimable(n, freed, owner, list) {
        forall a, other | a in list && other != owner ensures Canon(n, a).value !in Holds(reg, other) {
          if Canon(n, a).value in Holds(reg, other) { OthersAreKept(reg, owner, other, Canon(n, a).value); }
        }
      }
      if ClaimableAfter(n, start, before, r) {
        forall a | a in list
          ensures Canon(n, a).Ok? && (Canon(n, a).value in freed ==> freed[Canon(n, a).value] == owner)
        {
          assert Canon(n, a).Ok? && Canon(n, a).value in freed
               ==> Canon(n, a).value in Holds(reg, freed[Canon(n, a).value]);
        }
      }
    }
  }

  /** An import is accepted exactly when each row is claimable in its turn: the order of the file matters. */
  lemma {:induction false} ImportAccepted(n: Norms, start: Registry, rows: seq<Row>)
    ensures ApplyRows(n, start, rows).Ok? <==> forall i: nat :: i < |rows| ==> RowClaimable(n, start, rows, i)
  {
    if rows != [] {
      var m := |rows| - 1;
      ImportAccepted(n, start, rows[..m]);
      forall i: nat | i < m ensures RowClaimable(n, start, rows, i) <==> RowClaimable(n, start, rows[..m], i) {
        assert rows[..m][..i] == rows[..i] && rows[..m][i] == rows[i];
      }
      if ApplyRows(n, start, rows[..m]).Ok? {
        RowsApplied(n, start, rows[..m]);
        RowAccepted(n, start, rows[..m], ApplyRows(n, start, rows[..m]).value, rows[m]);
        assert forall i: nat :: i < |rows| && i != m ==> RowClaimable(n, start, rows[..m], i);
        assert RowClaimable(n, start, rows, m) <==> ClaimableAfter(n, start, rows[..m], rows[m]);
      } else {
        var i: nat :| i < m && !RowClaimable(n, start, rows[..m], i);
        assert !RowClaimable(n, start, rows, i);
      }
    }
  }

  lemma OneRow(n: Norms, reg: Registry, r: Row)
    ensures ApplyRows(n, reg, [r]) == ApplyRow(n, reg, r)
  {
    var rows := [r];
    assert rows[..|rows| - 1] == [];
  }

  lemma TwoRows(n: Norms, reg: Registry, r: Row, q: Row)
    requires ApplyRow(n, reg, r).Ok?
    ensures ApplyRows(n, reg, [r, q]) == ApplyRow(n, ApplyRow(n, reg, r).value, q)
  {
    var rows := [r, q];
    assert rows[..|rows| - 1] == [r];
    OneRow(n, reg, r);
  }

  /**
   * A file that moves an alias from one asset to another is refused when the new owner's row comes
   * first, and accepted when the old owner's row comes first.
   */
  lemma MovingAnAliasNeedsTheOldOwnerFirst(n: Norms, a: AliasKey)
    requires Canon(n, a).Ok? && n.trim("a") == "a" && n.trim("b") == "b"
    ensures var key := Canon(n, a).value;
            var reg := Registry(map["a" := "", "b" := ""], map[key := "b"]);
            var toA, fromB := Row("a", "", Some([a])), Row("b", "", Some([]));
            && Import(n, reg, [toA, fromB], false) == Err(HeldBy(key, "b"))
            && Import(n, reg, [fromB, toA], false).Ok?
  {
    var key := Canon(n, a).value;
    var reg := Registry(map["a" := "", "b" := ""], map[key := "b"]);
    var toA, fromB := Row("a", "", Some([a])), Row("b", "", Some([]));
    var freed := WithoutOwner(reg.aliases, "a");
    assert key in freed && freed[key] == "b";
    OneRow(n, reg, toA);
    var rows := [toA, fromB];
    assert rows[..|rows| - 1] == [toA];
    TwoRows(n, reg, fromB, toA);
    RowAccepted(n, reg, [], reg, fromB);
    var mid := ApplyRow(n, reg, fromB).value;
    assert key !in mid.aliases;
    AliasesWritten(n, WithoutOwner(mid.aliases, "a"), "a", [a]);
  }
}
