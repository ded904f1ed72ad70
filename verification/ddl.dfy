/**
 From the difference of two schema snapshots to PostgreSQL statements: the classified changes, the
 additive statements, and what the statements do to a database seen as tables of column definitions.
 */
module PostgresDdl {
  import opened Schema
  import KeyedDiff
  import Sorting
  import SqlText

  // ----- Changes -----------------------------------------------------------------------------------

  datatype Qualified = Qualified(schema: Option<string>, name: string)

  datatype Kind = CreateTableChange | DropTableChange | AddColumnChange | DropColumnChange | AlterColumnChange

  datatype Change = Change(kind: Kind, table: Qualified, column: Option<string>, destructive: bool)

  function NameOf(t: Table): Qualified {
    Qualified(t.schema, t.name)
  }

  function TableChanges(kind: Kind, ts: seq<Table>, destructive: bool): seq<Change> {
    Sorting.Mapped(ts, t => Change(kind, NameOf(t), None, destructive))
  }

  function ColumnChanges(kind: Kind, q: Qualified, columns: seq<Column>, destructive: bool): seq<Change> {
    Sorting.Mapped(columns, (c: Column) => Change(kind, q, Some(c.name), destructive))
  }

  function OldColumns(changed: seq<(Column, Column)>): seq<Column> {
    Sorting.Mapped(changed, (p: (Column, Column)) => p.0)
  }

  /** The changes inside one table; it is named as in `from`. */
  function ChangesWithin(d: TableDiff): seq<Change> {
    ColumnChanges(AddColumnChange, NameOf(d.from), d.columns.added, false)
    + ColumnChanges(AlterColumnChange, NameOf(d.from), OldColumns(d.columns.changed), true)
    + ColumnChanges(DropColumnChange, NameOf(d.from), d.columns.removed, true)
  }

  function ChangesWithinAll(ds: seq<TableDiff>): seq<Change> {
    if ds == [] then [] else ChangesWithin(ds[0]) + ChangesWithinAll(ds[1..])
  }

  function ChangesOf(diff: SnapshotDiff): seq<Change> {
    TableChanges(CreateTableChange, diff.addedTables, false)
    + ChangesWithinAll(diff.changedTables)
    + TableChanges(DropTableChange, diff.removedTables, true)
  }

  function Destructive(changes: seq<Change>): seq<Change> {
    Sorting.Filter(changes, (c: Change) => c.destructive)
  }

  function Additive(changes: seq<Change>): seq<Change> {
    Sorting.Filter(changes, (c: Change) => !c.destructive)
  }

  function EmptySnapshot(version: int): Snapshot {
    Snapshot(version, Option.None, [], Option.None)
  }

  function FromOr(from: Option<Snapshot>, version: int): Snapshot {
    match from case Some(s) => s case None => EmptySnapshot(version)
  }

  /** `planSchemaChanges`; it throws for an invalid snapshot. */
  ghost function PlanChanges(from: Option<Snapshot>, to: Snapshot, leq: StringOrder): Result<seq<Change>, Failure> {
    var older, newer := Normalize(FromOr(from, 1), leq), Normalize(to, leq);
    if !Valid(older) || !Valid(newer) then Err(InvalidSnapshot)
    else Ok(ChangesOf(DiffSnapshots(older, newer, leq)))
  }

  // ----- Statements ----------------------------------------------------------------------------------

  /** What a column definition says after the column's name. */
  datatype Definition = Definition(ctype: string, notNull: bool, standard: Option<string>)

  datatype Statement =
    | CreateTable(table: Qualified, columns: seq<(string, Definition)>, primaryKey: seq<string>)
    | AddColumn(table: Qualified, column: string, definition: Definition)

  function PgBaseType(t: ColumnType): string {
    if t.dialectType.Some? then t.dialectType.value
    else if t.kind == "varchar" || t.kind == "char" then
      if t.length.Some? then t.kind + "(" + SqlText.Decimal(t.length.value) + ")" else t.kind
    else if t.kind == "numeric" || t.kind == "decimal" then
      if t.precision.None? then "numeric"
      else if t.scale.None? then "numeric(" + SqlText.Decimal(t.precision.value) + ")"
      else "numeric(" + SqlText.Decimal(t.precision.value) + ", " + SqlText.Decimal(t.scale.value) + ")"
    else if t.kind == "timestamp" then "timestamptz"
    else t.kind
  }

  function PgType(t: ColumnType): string {
    if t.isArray == Some(true) then PgBaseType(t) + "[]" else PgBaseType(t)
  }

  /** Single quotes are doubled. */
  function Escape(text: string): string {
    if text == "" then "" else (if text[0] == '\'' then "''" else [text[0]]) + Escape(text[1..])
  }

  function PgDefault(d: ColumnDefault): string {
    match d
    case ExpressionDefault(sql) => sql
    case LiteralDefault(NullLiteral) => "NULL"
    case LiteralDefault(TextLiteral(text)) => "'" + Escape(text) + "'"
    case LiteralDefault(PlainLiteral(written)) => written
  }

  function DefinitionOf(c: Column): Definition {
    Definition(PgType(c.ctype), c.nullable == Some(false),
               match c.standard case None => None case Some(d) => Some(PgDefault(d)))
  }

  function ColumnPair(c: Column): (string, Definition) {
    (c.name, DefinitionOf(c))
  }

  function CreateOf(t: Table): Statement {
    CreateTable(NameOf(t), Sorting.Mapped(t.columns, ColumnPair),
                match t.primaryKey case None => [] case Some(k) => k.columns)
  }

  function AddsOf(q: Qualified, columns: seq<Column>): seq<Statement> {
    Sorting.Mapped(columns, (c: Column) => AddColumn(q, c.name, DefinitionOf(c)))
  }

  function AddsOfAll(ds: seq<TableDiff>): seq<Statement> {
    if ds == [] then [] else AddsOf(NameOf(ds[0].from), ds[0].columns.added) + AddsOfAll(ds[1..])
  }

  function StatementsOf(diff: SnapshotDiff): seq<Statement> {
    Sorting.Mapped(diff.addedTables, CreateOf) + AddsOfAll(diff.changedTables)
  }

  datatype UpStatements = UpStatements(statements: seq<Statement>, destructive: seq<Change>)

  /** `generatePostgresUpStatements`. */
  ghost function GenerateUp(to: Snapshot, from: Option<Snapshot>, leq: StringOrder): Result<UpStatements, Failure> {
    match PlanChanges(from, to, leq)
    case Err(e) => Err(e)
    case Ok(changes) =>
      Ok(UpStatements(StatementsOf(DiffSnapshots(FromOr(from, to.version), to, leq)), Destructive(changes)))
  }

  method ComputeCreates(ts: seq<Table>) returns (statements: seq<Statement>)
    ensures statements == Sorting.Mapped(ts, CreateOf)
  {
    statements := [];
    for i := 0 to |ts|
      invariant statements == Sorting.Mapped(ts[..i], CreateOf)
    {
      statements := statements + [CreateOf(ts[i])];
    }
    assert ts[..|ts|] == ts;
  }

  method ComputeAdds(q: Qualified, columns: seq<Column>) returns (statements: seq<Statement>)
    ensures statements == AddsOf(q, columns)
  {
    statements := [];
    for j := 0 to |columns|
      invariant statements == AddsOf(q, columns[..j])
    {
      statements := statements + [AddColumn(q, columns[j].name, DefinitionOf(columns[j]))];
    }
    assert columns[..|columns|] == columns;
  }

  /** The loops of the generator over the difference. */
  method ComputeStatements(diff: SnapshotDiff) returns (statements: seq<Statement>)
    ensures statements == StatementsOf(diff)
  {
    statements := ComputeCreates(diff.addedTables);
    var ds := diff.changedTables;
    assert ds[0..] == ds;
    for i := 0 to |ds|
      invariant statements + AddsOfAll(ds[i..]) == StatementsOf(diff)
    {
      var adds := ComputeAdds(NameOf(ds[i].from), ds[i].columns.added);
      assert ds[i..][1..] == ds[i + 1..];
      SqlText.Regroup(statements, adds, AddsOfAll(ds[i + 1..]));
      statements := statements + adds;
    }
    assert statements + [] == statements;
  }

  // ----- What statements do ----------------------------------------------------------------------------

  type Definitions = map<string, Definition>

  type Tables = map<Qualified, Definitions>

  type Keys = map<Qualified, seq<string>>

  /** The tables with their columns, and the columns of each table's primary key, none if it has no key. */
  datatype Database = Database(tables: Tables, keys: Keys)

  function ColumnMap(columns: seq<(string, Definition)>): Definitions {
    if columns == [] then map[]
    else ColumnMap(columns[..|columns| - 1])[columns[|columns| - 1].0 := columns[|columns| - 1].1]
  }

  predicate DistinctNames(columns: seq<(string, Definition)>) {
    forall i, j :: 0 <= i < j < |columns| ==> columns[i].0 != columns[j].0
  }

  /**
   None where PostgreSQL refuses the statement for what the columns and tables are: the table is there
   already, or is not; the column is there already; two columns of a new table share a name; the key names
   no column. Refusals for other reasons (rows under a NOT NULL without a default, a missing schema, a
   column named twice in the key) are not considered.
   */
  function Execute(db: Database, s: Statement): Option<Database> {
    match s
    case CreateTable(q, columns, primaryKey) =>
      if q in db.tables || !DistinctNames(columns) || !(forall n :: n in primaryKey ==> n in ColumnMap(columns)) then None
      else Some(Database(db.tables[q := ColumnMap(columns)], db.keys[q := primaryKey]))
    case AddColumn(q, name, definition) =>
      if q !in db.tables || name in db.tables[q] then None
      else Some(db.(tables := db.tables[q := db.tables[q][name := definition]]))
  }

  function ExecuteAll(db: Database, statements: seq<Statement>): Option<Database>
    decreases statements
  {
    if statements == [] then Some(db)
    else
      match Execute(db, statements[0])
      case None => None
      case Some(next) => ExecuteAll(next, statements[1..])
  }

  /** The column definitions of a list of columns. */
  function DefinitionsOf(columns: seq<Column>): (m: Definitions)
    ensures forall n :: n in m <==> n in KeyedDiff.Index(columns, ColumnName)
    ensures forall n :: n in m ==> m[n] == DefinitionOf(KeyedDiff.Index(columns, ColumnName)[n])
  {
    if columns == [] then map[]
    else
      var last := columns[|columns| - 1];
      DefinitionsOf(columns[..|columns| - 1])[last.name := DefinitionOf(last)]
  }

  /** The tables and columns that a list of tables describes. */
  function TableMap(ts: seq<Table>): (m: Tables)
    ensures forall q :: q in m <==> exists i :: 0 <= i < |ts| && NameOf(ts[i]) == q
  {
    if ts == [] then map[]
    else TableMap(ts[..|ts| - 1])[NameOf(ts[|ts| - 1]) := DefinitionsOf(ts[|ts| - 1].columns)]
  }

  /** The primary keys that a list of tables describes. */
  function KeyMap(ts: seq<Table>): Keys {
    if ts == [] then map[]
    else
      var last := ts[|ts| - 1];
      KeyMap(ts[..|ts| - 1])[NameOf(last) := if last.primaryKey.Some? then last.primaryKey.value.columns else []]
  }

  function DatabaseOf(ts: seq<Table>): Database {
    Database(TableMap(ts), KeyMap(ts))
  }

  lemma {:induction false} KeyMapFinds(ts: seq<Table>, t: Table)
    requires KeyedDiff.DistinctKeys(ts, KeyOf) && t in ts
    ensures NameOf(t) in KeyMap(ts)
    ensures KeyMap(ts)[NameOf(t)] == if t.primaryKey.Some? then t.primaryKey.value.columns else []
  {
    var before, last := ts[..|ts| - 1], ts[|ts| - 1];
    assert ts == before + [last];
    if t != last {
      assert t in before;
      DistinctSnoc(before, last, KeyOf);
      KeyMapFinds(before, t);
    }
  }

  lemma {:induction false} KeyMapNames(ts: seq<Table>)
    ensures KeyMap(ts).Keys == TableMap(ts).Keys
  {
    if ts != [] {
      KeyMapNames(ts[..|ts| - 1]);
    }
  }

  lemma {:induction false} DatabaseFinds(ts: seq<Table>, i: nat)
    requires KeyedDiff.DistinctKeys(ts, KeyOf) && i < |ts|
    ensures TableMap(ts)[NameOf(ts[i])] == DefinitionsOf(ts[i].columns)
    decreases |ts|
  {
    if i < |ts| - 1 {
      assert KeyOf(ts[i]) != KeyOf(ts[|ts| - 1]);
      DatabaseFinds(ts[..|ts| - 1], i);
    }
  }

  lemma {:induction false} ExecuteConcat(db: Database, a: seq<Statement>, b: seq<Statement>)
    requires ExecuteAll(db, a).Some?
    ensures ExecuteAll(db, a + b) == ExecuteAll(ExecuteAll(db, a).value, b)
    decreases a
  {
    if a == [] {
      assert a + b == b;
    } else {
      assert (a + b)[1..] == a[1..] + b;
      ExecuteConcat(Execute(db, a[0]).value, a[1..], b);
    }
  }

  lemma {:induction false} ExecuteSnoc(db: Database, a: seq<Statement>, last: Statement)
    requires ExecuteAll(db, a).Some?
    ensures ExecuteAll(db, a + [last]) == Execute(ExecuteAll(db, a).value, last)
  {
    ExecuteConcat(db, a, [last]);
    assert [last][1..] == [];
  }

  lemma PutAfter<K, V>(m: map<K, V>, n: map<K, V>, k: K, v: V)
    ensures (m + n)[k := v] == m + n[k := v]
  {
  }

  lemma PutTwice<K, V>(m: map<K, V>, k: K, v: V, w: V)
    ensures m[k := v][k := w] == m[k := w]
  {
  }

  lemma {:induction false} CreateColumns(columns: seq<Column>)
    ensures ColumnMap(Sorting.Mapped(columns, ColumnPair)) == DefinitionsOf(columns)
  {
    if columns == [] {
      assert Sorting.Mapped(columns, ColumnPair) == [];
    } else {
      var before, last := columns[..|columns| - 1], columns[|columns| - 1];
      assert columns == before + [last];
      CreateColumns(before);
      CreateColumnsSnoc(before, last);
    }
  }

  lemma {:induction false} CreateColumnsSnoc(before: seq<Column>, last: Column)
    requires ColumnMap(Sorting.Mapped(before, ColumnPair)) == DefinitionsOf(before)
    ensures ColumnMap(Sorting.Mapped(before + [last], ColumnPair)) == DefinitionsOf(before + [last])
  {
    PairsSnoc(before, last);
    ColumnMapSnoc(Sorting.Mapped(before, ColumnPair), ColumnPair(last));
    assert (before + [last])[..|before|] == before;
  }

  lemma {:induction false} PairsSnoc(columns: seq<Column>, last: Column)
    ensures Sorting.Mapped(columns + [last], ColumnPair) == Sorting.Mapped(columns, ColumnPair) + [ColumnPair(last)]
  {
    Sorting.MappedConcat(columns, [last], ColumnPair);
  }

  lemma {:induction false} ColumnMapSnoc(pairs: seq<(string, Definition)>, last: (string, Definition))
    ensures ColumnMap(pairs + [last]) == ColumnMap(pairs)[last.0 := last.1]
  {
    assert (pairs + [last])[..|pairs|] == pairs;
  }

  lemma {:induction false} ColumnMapNames(columns: seq<(string, Definition)>, name: string)
    ensures name in ColumnMap(columns) <==> exists i :: 0 <= i < |columns| && columns[i].0 == name
  {
    if columns != [] {
      var before := columns[..|columns| - 1];
      ColumnMapNames(before, name);
      assert forall i :: 0 <= i < |before| ==> before[i] == columns[i];
    }
  }

  /** The database refuses a table exactly if it is there, two columns share a name, or the key names none of them. */
  lemma {:induction false} CreateIsRefusedIff(db: Database, q: Qualified, columns: seq<(string, Definition)>, key: seq<string>)
    ensures Execute(db, CreateTable(q, columns, key)) == None <==>
      || q in db.tables
      || (exists i, j :: 0 <= i < j < |columns| && columns[i].0 == columns[j].0)
      || (exists n :: n in key && forall i :: 0 <= i < |columns| ==> columns[i].0 != n)
  {
    forall n | n in key ensures n in ColumnMap(columns) <==> exists i :: 0 <= i < |columns| && columns[i].0 == n {
      ColumnMapNames(columns, n);
    }
  }

  /** Nothing can be created or added twice, and nothing added to a table that is not there. */
  lemma {:induction false} NothingTwice(db: Database, s: Statement)
    ensures Execute(db, s).Some? ==> Execute(Execute(db, s).value, s) == None
    ensures s.AddColumn? ==> (Execute(db, s).Some? <==> s.table in db.tables && s.column !in db.tables[s.table])
  {
  }

  /** Creating a valid table that is not there succeeds. */
  lemma {:induction false} CreateSucceeds(db: Database, t: Table)
    requires TableOk(t) && NameOf(t) !in db.tables
    ensures Execute(db, CreateOf(t))
         == Some(Database(db.tables[NameOf(t) := DefinitionsOf(t.columns)],
                          db.keys[NameOf(t) := if t.primaryKey.Some? then t.primaryKey.value.columns else []]))
  {
    CreateColumns(t.columns);
    assert DistinctNames(Sorting.Mapped(t.columns, ColumnPair));
    if t.primaryKey.Some? {
      PrimaryKeyExists(t);
    }
  }

  lemma {:induction false} PrimaryKeyExists(t: Table)
    requires TableOk(t) && t.primaryKey.Some?
    ensures forall n :: n in t.primaryKey.value.columns ==> n in DefinitionsOf(t.columns)
  {
    forall n | n in t.primaryKey.value.columns ensures n in DefinitionsOf(t.columns) {
      assert HasColumn(t, n);
      KeyedDiff.HasKeyOf(t.columns, ColumnName, n);
    }
  }

  lemma {:induction false} NameIsNew(ts: seq<Table>, t: Table)
    requires forall u :: u in ts ==> KeyOf(u) != KeyOf(t)
    ensures NameOf(t) !in TableMap(ts)
  {
    forall i | 0 <= i < |ts| ensures NameOf(ts[i]) != NameOf(t) {
      assert ts[i] in ts;
    }
  }

  lemma {:induction false} CreatesSucceed(db: Database, ts: seq<Table>)
    requires KeyedDiff.DistinctKeys(ts, KeyOf)
    requires forall t :: t in ts ==> TableOk(t) && NameOf(t) !in db.tables
    ensures ExecuteAll(db, Sorting.Mapped(ts, CreateOf)) == Some(Database(db.tables + TableMap(ts), db.keys + KeyMap(ts)))
    decreases |ts|
  {
    if ts == [] {
      assert db.tables + map[] == db.tables && db.keys + map[] == db.keys;
    } else {
      var before, last := ts[..|ts| - 1], ts[|ts| - 1];
      assert ts == before + [last];
      DistinctSnoc(before, last, KeyOf);
      CreatesSucceed(db, before);
      NameIsNew(before, last);
      CreateSucceeds(Database(db.tables + TableMap(before), db.keys + KeyMap(before)), last);
      Sorting.MappedConcat(before, [last], CreateOf);
      assert Sorting.Mapped([last], CreateOf) == [CreateOf(last)];
      ExecuteSnoc(db, Sorting.Mapped(before, CreateOf), CreateOf(last));
      PutAfter(db.tables, TableMap(before), NameOf(last), DefinitionsOf(last.columns));
      PutAfter(db.keys, KeyMap(before), NameOf(last), if last.primaryKey.Some? then last.primaryKey.value.columns else []);
    }
  }

  lemma AddsSnoc(q: Qualified, before: seq<Column>, last: Column)
    ensures AddsOf(q, before + [last]) == AddsOf(q, before) + [AddColumn(q, last.name, DefinitionOf(last))]
  {
  }

  lemma {:induction false} AddStep(db: Database, q: Qualified, before: seq<Column>, last: Column)
    requires q in db.tables && last.name !in db.tables[q] && last.name !in DefinitionsOf(before)
    ensures var own := db.tables[q];
      Execute(db.(tables := db.tables[q := own + DefinitionsOf(before)]), AddColumn(q, last.name, DefinitionOf(last)))
        == Some(db.(tables := db.tables[q := own + DefinitionsOf(before + [last])]))
  {
    var own, added := db.tables[q], DefinitionsOf(before);
    assert (before + [last])[..|before|] == before;
    PutAfter(own, added, last.name, DefinitionOf(last));
    PutTwice(db.tables, q, own + added, own + DefinitionsOf(before + [last]));
  }

  lemma {:induction false} AddsSucceed(db: Database, q: Qualified, columns: seq<Column>)
    requires q in db.tables && KeyedDiff.DistinctKeys(columns, ColumnName)
    requires forall c :: c in columns ==> c.name !in db.tables[q]
    ensures ExecuteAll(db, AddsOf(q, columns))
         == Some(db.(tables := db.tables[q := db.tables[q] + DefinitionsOf(columns)]))
    decreases |columns|
  {
    if columns == [] {
      assert db.tables[q] + map[] == db.tables[q];
      assert db.tables[q := db.tables[q]] == db.tables;
    } else {
      var before, last := columns[..|columns| - 1], columns[|columns| - 1];
      assert columns == before + [last];
      DistinctSnoc(before, last, ColumnName);
      AddsSucceed(db, q, before);
      NameIsFresh(before, last);
      AddsSnoc(q, before, last);
      ExecuteSnoc(db, AddsOf(q, before), AddColumn(q, last.name, DefinitionOf(last)));
      AddStep(db, q, before, last);
    }
  }

  lemma {:induction false} NameIsFresh(before: seq<Column>, last: Column)
    requires forall c :: c in before ==> ColumnName(c) != ColumnName(last)
    ensures last.name !in DefinitionsOf(before)
  {
    KeyedDiff.HasKeyOf(before, ColumnName, last.name);
  }

  /** The database after the columns of the changed tables have been added. */
  function WithAdded(db: Tables, ds: seq<TableDiff>): (r: Tables)
    ensures r.Keys == db.Keys
  {
    if ds == [] then db
    else
      var q := NameOf(ds[0].from);
      WithAdded(if q in db then db[q := db[q] + DefinitionsOf(ds[0].columns.added)] else db, ds[1..])
  }

  ghost predicate AddsFit(db: Tables, d: TableDiff) {
    && NameOf(d.from) in db
    && KeyedDiff.DistinctKeys(d.columns.added, ColumnName)
    && forall c :: c in d.columns.added ==> c.name !in db[NameOf(d.from)]
  }

  function FromName(d: TableDiff): Qualified {
    NameOf(d.from)
  }

  predicate IsChanged(ds: seq<TableDiff>, q: Qualified) {
    exists i :: 0 <= i < |ds| && FromName(ds[i]) == q
  }

  ghost predicate DistinctFrom(ds: seq<TableDiff>) {
    forall i, j :: 0 <= i < j < |ds| ==> FromName(ds[i]) != FromName(ds[j])
  }

  lemma {:induction false} AllAddsSucceed(db: Database, ds: seq<TableDiff>)
    requires DistinctFrom(ds) && forall i :: 0 <= i < |ds| ==> AddsFit(db.tables, ds[i])
    ensures ExecuteAll(db, AddsOfAll(ds)) == Some(db.(tables := WithAdded(db.tables, ds)))
    decreases ds
  {
    if ds != [] {
      var q, rest, columns := FromName(ds[0]), ds[1..], ds[0].columns.added;
      assert AddsFit(db.tables, ds[0]);
      AddsSucceed(db, q, columns);
      var own := db.tables[q] + DefinitionsOf(columns);
      RestStillFits(db.tables, ds, own);
      AllAddsSucceed(db.(tables := db.tables[q := own]), rest);
      ExecuteConcat(db, AddsOf(q, columns), AddsOfAll(rest));
    }
  }

  /** Adding to one table leaves room in the others. */
  lemma {:induction false} RestStillFits(db: Tables, ds: seq<TableDiff>, v: Definitions)
    requires ds != [] && DistinctFrom(ds) && forall i :: 0 <= i < |ds| ==> AddsFit(db, ds[i])
    ensures FromName(ds[0]) in db && DistinctFrom(ds[1..])
    ensures forall i :: 0 <= i < |ds[1..]| ==>
      AddsFit(db[FromName(ds[0]) := v], ds[1..][i]) && FromName(ds[1..][i]) != FromName(ds[0])
  {
    assert AddsFit(db, ds[0]);
    forall i | 0 <= i < |ds[1..]|
      ensures AddsFit(db[FromName(ds[0]) := v], ds[1..][i]) && FromName(ds[1..][i]) != FromName(ds[0])
    {
      assert ds[1..][i] == ds[i + 1] && AddsFit(db, ds[i + 1]);
    }
  }

  /** What the additions leave: own columns and new ones in each changed table, the rest as it was. */
  lemma {:induction false} AddedAndKept(db: Tables, ds: seq<TableDiff>)
    requires DistinctFrom(ds) && forall i :: 0 <= i < |ds| ==> AddsFit(db, ds[i])
    ensures forall i :: 0 <= i < |ds| ==>
      && FromName(ds[i]) in db
      && WithAdded(db, ds)[FromName(ds[i])] == db[FromName(ds[i])] + DefinitionsOf(ds[i].columns.added)
    ensures forall q :: q in db && !IsChanged(ds, q) ==> WithAdded(db, ds)[q] == db[q]
    decreases ds
  {
    if ds != [] {
      var q, rest := FromName(ds[0]), ds[1..];
      assert AddsFit(db, ds[0]);
      var own := db[q] + DefinitionsOf(ds[0].columns.added);
      RestStillFits(db, ds, own);
      var next := db[q := own];
      AddedAndKept(next, rest);
      forall i | 0 <= i < |ds|
        ensures FromName(ds[i]) in db
        ensures WithAdded(db, ds)[FromName(ds[i])] == db[FromName(ds[i])] + DefinitionsOf(ds[i].columns.added)
      {
        assert AddsFit(db, ds[i]);
        if i > 0 {
          assert rest[i - 1] == ds[i];
        } else {
          assert !IsChanged(rest, q);
        }
      }
      forall p | p in db && !IsChanged(ds, p) ensures WithAdded(db, ds)[p] == db[p] {
        assert FromName(ds[0]) != p;
        assert forall i :: 0 <= i < |rest| ==> rest[i] == ds[i + 1];
        assert !IsChanged(rest, p);
      }
    }
  }

  // ----- Statements and changes correspond --------------------------------------------------------------

  ghost predicate Implements(s: Statement, c: Change) {
    match s
    case CreateTable(q, _, _) => c.kind == CreateTableChange && c.table == q && c.column == None
    case AddColumn(q, name, _) => c.kind == AddColumnChange && c.table == q && c.column == Some(name)
  }

  ghost predicate Correspond(ss: seq<Statement>, cs: seq<Change>) {
    |ss| == |cs| && forall i :: 0 <= i < |ss| ==> Implements(ss[i], cs[i])
  }

  lemma CorrespondConcat(s1: seq<Statement>, c1: seq<Change>, s2: seq<Statement>, c2: seq<Change>)
    requires Correspond(s1, c1) && Correspond(s2, c2)
    ensures Correspond(s1 + s2, c1 + c2)
  {
  }

  lemma {:induction false} FilterConcat<T(!new)>(a: seq<T>, b: seq<T>, keep: T -> bool)
    ensures Sorting.Filter(a + b, keep) == Sorting.Filter(a, keep) + Sorting.Filter(b, keep)
    decreases a
  {
    if a == [] {
      assert a + b == b;
    } else {
      assert (a + b)[1..] == a[1..] + b;
      FilterConcat(a[1..], b, keep);
    }
  }

  lemma {:induction false} FilterAll<T(!new)>(a: seq<T>, keep: T -> bool)
    ensures (forall i :: 0 <= i < |a| ==> keep(a[i])) ==> Sorting.Filter(a, keep) == a
    ensures (forall i :: 0 <= i < |a| ==> !keep(a[i])) ==> Sorting.Filter(a, keep) == []
  {
    if a != [] {
      FilterAll(a[1..], keep);
    }
  }

  lemma AdditiveWithin(d: TableDiff)
    ensures Additive(ChangesWithin(d)) == ColumnChanges(AddColumnChange, NameOf(d.from), d.columns.added, false)
  {
    var adds := ColumnChanges(AddColumnChange, NameOf(d.from), d.columns.added, false);
    var alters := ColumnChanges(AlterColumnChange, NameOf(d.from), OldColumns(d.columns.changed), true);
    var drops := ColumnChanges(DropColumnChange, NameOf(d.from), d.columns.removed, true);
    var keep := (c: Change) => !c.destructive;
    FilterConcat(adds + alters, drops, keep);
    FilterConcat(adds, alters, keep);
    FilterAll(adds, keep);
    FilterAll(alters, keep);
    FilterAll(drops, keep);
  }

  lemma {:induction false} AddsCorrespond(ds: seq<TableDiff>)
    ensures Correspond(AddsOfAll(ds), Additive(ChangesWithinAll(ds)))
  {
    if ds != [] {
      AddsCorrespond(ds[1..]);
      AdditiveWithin(ds[0]);
      FilterConcat(ChangesWithin(ds[0]), ChangesWithinAll(ds[1..]), (c: Change) => !c.destructive);
      CorrespondConcat(AddsOf(NameOf(ds[0].from), ds[0].columns.added), Additive(ChangesWithin(ds[0])),
                       AddsOfAll(ds[1..]), Additive(ChangesWithinAll(ds[1..])));
    }
  }

  /** The statements implement the non-destructive changes, one for one and in order. */
  lemma StatementsAreTheAdditiveChanges(diff: SnapshotDiff)
    ensures Correspond(StatementsOf(diff), Additive(ChangesOf(diff)))
  {
    var creates := TableChanges(CreateTableChange, diff.addedTables, false);
    var drops := TableChanges(DropTableChange, diff.removedTables, true);
    var keep := (c: Change) => !c.destructive;
    FilterConcat(creates + ChangesWithinAll(diff.changedTables), drops, keep);
    FilterConcat(creates, ChangesWithinAll(diff.changedTables), keep);
    FilterAll(creates, keep);
    FilterAll(drops, keep);
    AddsCorrespond(diff.changedTables);
    assert Correspond(Sorting.Mapped(diff.addedTables, CreateOf), creates);
    CorrespondConcat(Sorting.Mapped(diff.addedTables, CreateOf), creates,
                     AddsOfAll(diff.changedTables), Additive(ChangesWithinAll(diff.changedTables)));
    assert Additive(ChangesOf(diff)) == creates + Additive(ChangesWithinAll(diff.changedTables)) + [];
  }

  lemma {:induction false} ChangesWithinAre(ds: seq<TableDiff>, c: Change)
    ensures c in ChangesWithinAll(ds) <==> exists i :: 0 <= i < |ds| && c in ChangesWithin(ds[i])
  {
    if ds != [] {
      ChangesWithinAre(ds[1..], c);
      assert forall i :: 0 < i < |ds| ==> ds[i] == ds[1..][i - 1];
    }
  }

  // ----- What the statements leave -----------------------------------------------------------------------

  /** The tables of two valid snapshots, in canonical form. */
  ghost predicate Comparable(a: seq<Table>, b: seq<Table>) {
    TablesOk(a) && TablesOk(b)
  }

  /** The difference of two lists of tables. */
  function DiffOfTables(a: seq<Table>, b: seq<Table>): SnapshotDiff {
    var delta := KeyedDiff.Diff(a, b, KeyOf);
    SnapshotDiff(delta.added, delta.removed, WithColumns(delta.changed))
  }

  /** `schema.name` is the same text only for the same table. */
  ghost predicate KeysAreFaithful(a: seq<Table>, b: seq<Table>) {
    forall t, u :: t in a && u in b && KeyOf(t) == KeyOf(u) ==> NameOf(t) == NameOf(u)
  }

  lemma {:induction false} OnlyStaysDistinct<T>(items: seq<T>, other: map<string, T>, key: T -> string)
    requires KeyedDiff.DistinctKeys(items, key)
    ensures KeyedDiff.DistinctKeys(KeyedDiff.Only(items, other, key), key)
  {
    if items != [] {
      var before, last := items[..|items| - 1], items[|items| - 1];
      assert items == before + [last];
      DistinctSnoc(before, last, key);
      OnlyStaysDistinct(before, other, key);
      var kept := KeyedDiff.Only(before, other, key);
      forall x | x in kept ensures key(x) != key(last) {
        KeyedDiff.OnlyIs(before, other, key, x);
      }
      DistinctSnoc(kept, last, key);
    }
  }

  ghost predicate DistinctOld(changed: seq<(Table, Table)>) {
    forall i, j :: 0 <= i < j < |changed| ==> KeyOf(changed[i].0) != KeyOf(changed[j].0)
  }

  lemma {:induction false} ChangedStaysDistinct(items: seq<Table>, other: map<string, Table>)
    requires KeyedDiff.DistinctKeys(items, KeyOf)
    ensures DistinctOld(KeyedDiff.Changed(items, other, KeyOf))
  {
    if items != [] {
      var before, last := items[..|items| - 1], items[|items| - 1];
      assert items == before + [last];
      DistinctSnoc(before, last, KeyOf);
      ChangedStaysDistinct(before, other);
      var kept := KeyedDiff.Changed(before, other, KeyOf);
      forall i | 0 <= i < |kept| ensures KeyOf(kept[i].0) != KeyOf(last) {
        KeyedDiff.ChangedIs(before, other, KeyOf, kept[i].0, kept[i].1);
        assert kept[i] in kept;
      }
    }
  }

  lemma {:induction false} InDatabase(ts: seq<Table>, t: Table)
    requires KeyedDiff.DistinctKeys(ts, KeyOf) && t in ts
    ensures NameOf(t) in TableMap(ts) && TableMap(ts)[NameOf(t)] == DefinitionsOf(t.columns)
    ensures KeyedDiff.Index(ts, KeyOf)[KeyOf(t)] == t
  {
    var i :| 0 <= i < |ts| && ts[i] == t;
    DatabaseFinds(ts, i);
    KeyedDiff.IndexFinds(ts, KeyOf, i);
  }

  /** One changed table: its old version is in `a`, its new one in `b`, and its additions fit. */
  lemma {:induction false} ChangedTable(a: seq<Table>, b: seq<Table>, i: nat)
    requires Comparable(a, b) && i < |DiffOfTables(a, b).changedTables|
    ensures var d := DiffOfTables(a, b).changedTables[i];
      && d.from in a && d.to in b && KeyOf(d.from) == KeyOf(d.to) && d.from != d.to
      && d.columns == KeyedDiff.Diff(d.from.columns, d.to.columns, ColumnName)
      && AddsFit(TableMap(a), d)
  {
    var d := DiffOfTables(a, b).changedTables[i];
    KeyedDiff.ChangedIs(a, KeyedDiff.Index(b, KeyOf), KeyOf, d.from, d.to);
    assert KeyedDiff.Diff(a, b, KeyOf).changed[i] == (d.from, d.to);
    InDatabase(a, d.from);
    assert TableOk(d.to);
    OnlyStaysDistinct(d.to.columns, KeyedDiff.Index(d.from.columns, ColumnName), ColumnName);
    forall c | c in d.columns.added ensures c.name !in TableMap(a)[NameOf(d.from)] {
      KeyedDiff.OnlyIs(d.to.columns, KeyedDiff.Index(d.from.columns, ColumnName), ColumnName, c);
    }
  }

  lemma {:induction false} DistinctPairs(changed: seq<(Table, Table)>)
    requires DistinctOld(changed)
    ensures DistinctFrom(WithColumns(changed))
  {
    var ds := WithColumns(changed);
    forall i, j | 0 <= i < j < |ds| ensures FromName(ds[i]) != FromName(ds[j]) {
      assert ds[i].from == changed[i].0 && ds[j].from == changed[j].0;
    }
  }

  lemma ChangedTablesAreDistinct(a: seq<Table>, b: seq<Table>)
    requires Comparable(a, b)
    ensures DistinctFrom(DiffOfTables(a, b).changedTables)
  {
    var other := KeyedDiff.Index(b, KeyOf);
    var changed := KeyedDiff.Changed(a, other, KeyOf);
    ChangedStaysDistinct(a, other);
    assert DistinctOld(changed);
    DistinctPairs(changed);
  }

  lemma {:induction false} AddedTable(a: seq<Table>, b: seq<Table>, t: Table)
    requires Comparable(a, b) && t in DiffOfTables(a, b).addedTables
    ensures t in b && TableOk(t) && NameOf(t) !in TableMap(a) && KeyOf(t) !in KeyedDiff.Index(a, KeyOf)
  {
    KeyedDiff.OnlyIs(b, KeyedDiff.Index(a, KeyOf), KeyOf, t);
    forall u | u in a ensures KeyOf(u) != KeyOf(t) {
      InDatabase(a, u);
    }
    NameIsNew(a, t);
  }

  /** The tables and columns after all statements. */
  function After(a: seq<Table>, b: seq<Table>): Tables {
    WithAdded(TableMap(a) + TableMap(DiffOfTables(a, b).addedTables), DiffOfTables(a, b).changedTables)
  }

  lemma {:induction false} AddedNamesAreNew(a: seq<Table>, b: seq<Table>)
    requires Comparable(a, b)
    ensures TableMap(DiffOfTables(a, b).addedTables).Keys !! TableMap(a).Keys
    ensures forall t :: t in DiffOfTables(a, b).addedTables ==> TableOk(t) && NameOf(t) !in TableMap(a)
  {
    var added := DiffOfTables(a, b).addedTables;
    forall t | t in added ensures TableOk(t) && NameOf(t) !in TableMap(a) {
      AddedTable(a, b, t);
    }
    forall q | q in TableMap(added) ensures q !in TableMap(a) {
      var j :| 0 <= j < |added| && NameOf(added[j]) == q;
      assert added[j] in added;
    }
  }

  /** Nothing is created or added that is there already, so `Execute` refuses no statement. */
  lemma {:induction false} StatementsSucceed(a: seq<Table>, b: seq<Table>)
    requires Comparable(a, b)
    ensures ExecuteAll(DatabaseOf(a), StatementsOf(DiffOfTables(a, b)))
         == Some(Database(After(a, b), KeyMap(a) + KeyMap(DiffOfTables(a, b).addedTables)))
    ensures forall t :: t in DiffOfTables(a, b).addedTables ==>
      NameOf(t) in After(a, b) && After(a, b)[NameOf(t)] == DefinitionsOf(t.columns)
    ensures forall i :: 0 <= i < |DiffOfTables(a, b).changedTables| ==>
      var d := DiffOfTables(a, b).changedTables[i];
      && FromName(d) in TableMap(a) && FromName(d) in After(a, b)
      && After(a, b)[FromName(d)] == TableMap(a)[FromName(d)] + DefinitionsOf(d.columns.added)
    ensures forall q :: q in TableMap(a) && !IsChanged(DiffOfTables(a, b).changedTables, q) ==>
      q in After(a, b) && After(a, b)[q] == TableMap(a)[q]
    ensures After(a, b).Keys == TableMap(a).Keys + TableMap(DiffOfTables(a, b).addedTables).Keys
  {
    var db, diff := TableMap(a), DiffOfTables(a, b);
    var added, ds := diff.addedTables, diff.changedTables;
    var middle := db + TableMap(added);
    AddedNamesAreNew(a, b);
    OnlyStaysDistinct(b, KeyedDiff.Index(a, KeyOf), KeyOf);
    CreatesSucceed(DatabaseOf(a), added);
    forall i | 0 <= i < |ds| ensures FromName(ds[i]) in db && AddsFit(middle, ds[i]) {
      ChangedTable(a, b, i);
      assert FromName(ds[i]) in db && FromName(ds[i]) !in TableMap(added);
    }
    ChangedTablesAreDistinct(a, b);
    AllAddsSucceed(Database(middle, KeyMap(a) + KeyMap(added)), ds);
    AddedAndKept(middle, ds);
    ExecuteConcat(DatabaseOf(a), Sorting.Mapped(added, CreateOf), AddsOfAll(ds));
    forall t | t in added ensures NameOf(t) in After(a, b) && After(a, b)[NameOf(t)] == DefinitionsOf(t.columns) {
      InDatabase(added, t);
      assert forall i :: 0 <= i < |ds| ==> FromName(ds[i]) != NameOf(t);
    }
  }

  /** The columns a table has afterwards: its own, and the ones that only the new version has. */
  lemma {:induction false} AddedAt(older: seq<Column>, newer: seq<Column>, n: string)
    requires KeyedDiff.DistinctKeys(newer, ColumnName)
    ensures var added := KeyedDiff.Index(KeyedDiff.Diff(older, newer, ColumnName).added, ColumnName);
      var from, to := KeyedDiff.Index(older, ColumnName), KeyedDiff.Index(newer, ColumnName);
      && (n in added <==> n in to && n !in from)
      && (n in added ==> added[n] == to[n])
  {
    var from := KeyedDiff.Index(older, ColumnName);
    var only := KeyedDiff.Only(newer, from, ColumnName);
    var added := KeyedDiff.Index(only, ColumnName);
    KeyedDiff.RemovedAt(newer, from, ColumnName, n);
    if n in added {
      KeyedDiff.OnlyIs(newer, from, ColumnName, added[n]);
      var i :| 0 <= i < |newer| && newer[i] == added[n];
      KeyedDiff.IndexFinds(newer, ColumnName, i);
    }
  }

  function ColumnsAfter(older: seq<Column>, newer: seq<Column>): Definitions {
    DefinitionsOf(older) + DefinitionsOf(KeyedDiff.Diff(older, newer, ColumnName).added)
  }

  lemma {:induction false} ColumnAfter(older: seq<Column>, newer: seq<Column>, n: string)
    requires KeyedDiff.DistinctKeys(newer, ColumnName)
    ensures var from, to := KeyedDiff.Index(older, ColumnName), KeyedDiff.Index(newer, ColumnName);
      var after := ColumnsAfter(older, newer);
      && (n in after <==> n in from || n in to)
      && (n in from ==> after[n] == DefinitionOf(from[n]))
      && (n in to && n !in from ==> after[n] == DefinitionOf(to[n]))
  {
    AddedAt(older, newer, n);
  }

  // ----- Destructive entries -----------------------------------------------------------------------------

  function DropTable(q: Qualified): Change {
    Change(DropTableChange, q, None, true)
  }

  function DropColumn(q: Qualified, n: string): Change {
    Change(DropColumnChange, q, Some(n), true)
  }

  function AlterColumn(q: Qualified, n: string): Change {
    Change(AlterColumnChange, q, Some(n), true)
  }

  /** The destructive changes between two lists of tables. */
  function Withheld(a: seq<Table>, b: seq<Table>): seq<Change> {
    Destructive(ChangesOf(DiffOfTables(a, b)))
  }

  lemma {:induction false} DropTableListed(a: seq<Table>, b: seq<Table>, t: Table)
    requires t in a && KeyOf(t) !in KeyedDiff.Index(b, KeyOf)
    ensures DropTable(NameOf(t)) in Withheld(a, b)
  {
    var removed := DiffOfTables(a, b).removedTables;
    KeyedDiff.OnlyIs(a, KeyedDiff.Index(b, KeyOf), KeyOf, t);
    var i :| 0 <= i < |removed| && removed[i] == t;
    assert TableChanges(DropTableChange, removed, true)[i] == DropTable(NameOf(t));
    assert DropTable(NameOf(t)) in TableChanges(DropTableChange, removed, true);
  }

  lemma {:induction false} WithinListed(a: seq<Table>, b: seq<Table>, i: nat, c: Change)
    requires i < |DiffOfTables(a, b).changedTables| && c in ChangesWithin(DiffOfTables(a, b).changedTables[i])
    requires c.destructive
    ensures c in Withheld(a, b)
  {
    ChangesWithinAre(DiffOfTables(a, b).changedTables, c);
  }

  lemma {:induction false} DropColumnListed(d: TableDiff, n: string)
    requires d.columns == KeyedDiff.Diff(d.from.columns, d.to.columns, ColumnName)
    requires n in KeyedDiff.Index(d.from.columns, ColumnName) && n !in KeyedDiff.Index(d.to.columns, ColumnName)
    ensures DropColumn(FromName(d), n) in ChangesWithin(d)
  {
    var old' := KeyedDiff.Index(d.from.columns, ColumnName)[n];
    var removed := d.columns.removed;
    KeyedDiff.OnlyIs(d.from.columns, KeyedDiff.Index(d.to.columns, ColumnName), ColumnName, old');
    var i :| 0 <= i < |removed| && removed[i] == old';
    var drops := ColumnChanges(DropColumnChange, FromName(d), removed, true);
    assert drops[i] == DropColumn(FromName(d), n);
    assert DropColumn(FromName(d), n) in drops;
  }

  lemma {:induction false} AlterColumnListed(d: TableDiff, n: string)
    requires KeyedDiff.DistinctKeys(d.from.columns, ColumnName)
    requires d.columns == KeyedDiff.Diff(d.from.columns, d.to.columns, ColumnName)
    requires n in KeyedDiff.Index(d.from.columns, ColumnName) && n in KeyedDiff.Index(d.to.columns, ColumnName)
    requires KeyedDiff.Index(d.from.columns, ColumnName)[n] != KeyedDiff.Index(d.to.columns, ColumnName)[n]
    ensures AlterColumn(FromName(d), n) in ChangesWithin(d)
  {
    var x, y := KeyedDiff.Index(d.from.columns, ColumnName)[n], KeyedDiff.Index(d.to.columns, ColumnName)[n];
    var changed := d.columns.changed;
    KeyedDiff.ChangedAt(d.from.columns, d.to.columns, ColumnName, n);
    var i :| 0 <= i < |changed| && changed[i] == (x, y);
    var olds := OldColumns(changed);
    assert olds[i] == x && ColumnName(x) == n;
    var alters := ColumnChanges(AlterColumnChange, FromName(d), olds, true);
    assert alters[i] == AlterColumn(FromName(d), n);
    assert AlterColumn(FromName(d), n) in alters;
  }

  // ----- The generator's guarantees ----------------------------------------------------------------------

  /** Every column that was there is there unchanged. */
  lemma {:induction false} OldColumnsStay(a: seq<Table>, b: seq<Table>, q: Qualified)
    requires Comparable(a, b) && q in TableMap(a)
    ensures q in After(a, b) && forall n :: n in TableMap(a)[q] ==> n in After(a, b)[q] && After(a, b)[q][n] == TableMap(a)[q][n]
  {
    StatementsSucceed(a, b);
    var ds := DiffOfTables(a, b).changedTables;
    if IsChanged(ds, q) {
      var i :| 0 <= i < |ds| && FromName(ds[i]) == q;
      ChangedTable(a, b, i);
      InDatabase(a, ds[i].from);
      forall n | n in TableMap(a)[q] ensures n in After(a, b)[q] && After(a, b)[q][n] == TableMap(a)[q][n] {
        ColumnAfter(ds[i].from.columns, ds[i].to.columns, n);
      }
    }
  }

  /** `t` of `b`, where it is found in the end and how it can differ. */
  ghost predicate ReachedExcept(a: seq<Table>, b: seq<Table>, t: Table) {
    var q := NameOf(t);
    && q in After(a, b)
    && (forall n :: n in DefinitionsOf(t.columns) ==>
          n in After(a, b)[q] && (After(a, b)[q][n] == DefinitionsOf(t.columns)[n] || AlterColumn(q, n) in Withheld(a, b)))
    && (forall n :: n in After(a, b)[q] ==> n in DefinitionsOf(t.columns) || DropColumn(q, n) in Withheld(a, b))
  }

  lemma {:induction false} ChangedIsReached(a: seq<Table>, b: seq<Table>, i: nat)
    requires Comparable(a, b) && i < |DiffOfTables(a, b).changedTables|
    requires NameOf(DiffOfTables(a, b).changedTables[i].to) == NameOf(DiffOfTables(a, b).changedTables[i].from)
    ensures ReachedExcept(a, b, DiffOfTables(a, b).changedTables[i].to)
  {
    var d := DiffOfTables(a, b).changedTables[i];
    var q, defs := NameOf(d.to), DefinitionsOf(d.to.columns);
    StatementsSucceed(a, b);
    ChangedTable(a, b, i);
    InDatabase(a, d.from);
    assert TableOk(d.from) && TableOk(d.to);
    assert After(a, b)[q] == ColumnsAfter(d.from.columns, d.to.columns);
    forall n | n in defs
      ensures n in After(a, b)[q] && (After(a, b)[q][n] == defs[n] || AlterColumn(q, n) in Withheld(a, b))
    {
      ColumnAfter(d.from.columns, d.to.columns, n);
      if After(a, b)[q][n] != defs[n] {
        AlterColumnListed(d, n);
        WithinListed(a, b, i, AlterColumn(q, n));
      }
    }
    forall n | n in After(a, b)[q] ensures n in defs || DropColumn(q, n) in Withheld(a, b) {
      ColumnAfter(d.from.columns, d.to.columns, n);
      if n !in defs {
        DropColumnListed(d, n);
        WithinListed(a, b, i, DropColumn(q, n));
      }
    }
  }

  lemma {:induction false} TableIsReached(a: seq<Table>, b: seq<Table>, t: Table)
    requires Comparable(a, b) && KeysAreFaithful(a, b) && t in b
    ensures ReachedExcept(a, b, t)
  {
    var older := KeyedDiff.Index(a, KeyOf);
    InDatabase(b, t);
    if KeyOf(t) !in older {
      StatementsSucceed(a, b);
      KeyedDiff.OnlyIs(b, older, KeyOf, t);
    } else if older[KeyOf(t)] == t {
      StatementsSucceed(a, b);
      InDatabase(a, t);
      NotChanged(a, b, t);
    } else {
      ReplacedIsReached(a, b, older[KeyOf(t)], t);
    }
  }

  lemma {:induction false} ReplacedIsReached(a: seq<Table>, b: seq<Table>, u: Table, t: Table)
    requires Comparable(a, b) && KeysAreFaithful(a, b) && u in a && t in b && KeyOf(u) == KeyOf(t) && u != t
    ensures ReachedExcept(a, b, t)
  {
    InDatabase(b, t);
    KeyedDiff.ChangedIs(a, KeyedDiff.Index(b, KeyOf), KeyOf, u, t);
    var changed := KeyedDiff.Diff(a, b, KeyOf).changed;
    var i :| 0 <= i < |changed| && changed[i] == (u, t);
    ChangedIsReached(a, b, i);
  }

  lemma {:induction false} NotChanged(a: seq<Table>, b: seq<Table>, t: Table)
    requires Comparable(a, b) && t in a && t in b
    ensures !IsChanged(DiffOfTables(a, b).changedTables, NameOf(t))
  {
    var ds := DiffOfTables(a, b).changedTables;
    forall i | 0 <= i < |ds| ensures FromName(ds[i]) != NameOf(t) {
      ChangedTable(a, b, i);
      InDatabase(a, t);
      InDatabase(a, ds[i].from);
      InDatabase(b, t);
      InDatabase(b, ds[i].to);
    }
  }

  /** A table that is there in the end is in `b`, or its removal was withheld. */
  lemma {:induction false} NothingElseIsThere(a: seq<Table>, b: seq<Table>, q: Qualified)
    requires Comparable(a, b) && KeysAreFaithful(a, b) && q in After(a, b)
    ensures q in TableMap(b) || DropTable(q) in Withheld(a, b)
  {
    StatementsSucceed(a, b);
    var added := DiffOfTables(a, b).addedTables;
    if q in TableMap(added) {
      var i :| 0 <= i < |added| && NameOf(added[i]) == q;
      assert added[i] in added;
      AddedTable(a, b, added[i]);
      InDatabase(b, added[i]);
    } else {
      var i :| 0 <= i < |a| && NameOf(a[i]) == q;
      var newer := KeyedDiff.Index(b, KeyOf);
      if KeyOf(a[i]) in newer {
        InDatabase(b, newer[KeyOf(a[i])]);
      } else {
        DropTableListed(a, b, a[i]);
      }
    }
  }

  /** Where a key stands for two names, the table of `b` is never created. */
  lemma {:induction false} UnfaithfulKeyMissesATable(a: seq<Table>, b: seq<Table>)
    requires Comparable(a, b) && !KeysAreFaithful(a, b)
    ensures After(a, b) != TableMap(b)
  {
    var t, u :| t in a && u in b && KeyOf(t) == KeyOf(u) && NameOf(t) != NameOf(u);
    StatementsSucceed(a, b);
    InDatabase(b, u);
    InDatabase(a, t);
    var added := DiffOfTables(a, b).addedTables;
    if NameOf(u) in TableMap(a) {
      var i :| 0 <= i < |a| && NameOf(a[i]) == NameOf(u);
      InDatabase(a, a[i]);
      assert false;
    }
    if NameOf(u) in TableMap(added) {
      var i :| 0 <= i < |added| && NameOf(added[i]) == NameOf(u);
      AddedTable(a, b, added[i]);
      assert false;
    }
    assert NameOf(u) !in After(a, b);
  }

  ghost predicate Keeps(after: Definitions, before: Definitions) {
    forall n :: n in before ==> n in after && after[n] == before[n]
  }

  /** The database differs from what the tables `b` describe only where a destructive change says so. */
  ghost predicate DiffersOnlyAt(after: Tables, b: seq<Table>, destructive: seq<Change>) {
    && (forall q :: q in after ==> q in TableMap(b) || DropTable(q) in destructive)
    && (forall q :: q in TableMap(b) ==> q in after && ColumnsDifferOnlyAt(after[q], TableMap(b)[q], q, destructive))
  }

  ghost predicate ColumnsDifferOnlyAt(after: Definitions, goal: Definitions, q: Qualified, destructive: seq<Change>) {
    && (forall n :: n in goal ==> n in after && (after[n] == goal[n] || AlterColumn(q, n) in destructive))
    && (forall n :: n in after ==> n in goal || DropColumn(q, n) in destructive)
  }

  lemma {:induction false} LeftOversAreListed(a: seq<Table>, b: seq<Table>)
    requires Comparable(a, b) && KeysAreFaithful(a, b)
    ensures DiffersOnlyAt(After(a, b), b, Withheld(a, b))
  {
    forall q | q in After(a, b) ensures q in TableMap(b) || DropTable(q) in Withheld(a, b) {
      NothingElseIsThere(a, b, q);
    }
    forall q | q in TableMap(b)
      ensures q in After(a, b) && ColumnsDifferOnlyAt(After(a, b)[q], TableMap(b)[q], q, Withheld(a, b))
    {
      var i :| 0 <= i < |b| && NameOf(b[i]) == q;
      InDatabase(b, b[i]);
      TableIsReached(a, b, b[i]);
    }
  }

  lemma {:induction false} DiffersNowhere(after: Tables, b: seq<Table>)
    requires DiffersOnlyAt(after, b, [])
    ensures after == TableMap(b)
  {
    var goal := TableMap(b);
    assert after.Keys == goal.Keys;
    forall q | q in goal ensures after[q] == goal[q] {
      assert ColumnsDifferOnlyAt(after[q], goal[q], q, []);
      assert after[q].Keys == goal[q].Keys;
    }
  }

  // ----- What new tables and columns are, from the snapshot's fields ----------------------------------------

  /** The text of a type: a name, up to two numbers in brackets, and "[]" for an array. */
  predicate WritesType(text: string, name: string, numbers: seq<nat>, isArray: bool) {
    var bracketed :=
      if |numbers| == 0 then ""
      else if |numbers| == 1 then "(" + SqlText.Decimal(numbers[0]) + ")"
      else "(" + SqlText.Decimal(numbers[0]) + ", " + SqlText.Decimal(numbers[1]) + ")";
    text == name + bracketed + (if isArray then "[]" else "")
  }

  /** What PostgreSQL calls the kind of a column. */
  function TypeName(kind: string): string {
    if kind == "decimal" then "numeric" else if kind == "timestamp" then "timestamptz" else kind
  }

  /** The numbers that belong to the kind: a length, or a precision with its scale. */
  function TypeNumbers(t: ColumnType): seq<nat> {
    if t.kind in ["varchar", "char"] && t.length.Some? then [t.length.value]
    else if t.kind in ["numeric", "decimal"] && t.precision.Some? then
      [t.precision.value] + (if t.scale.Some? then [t.scale.value] else [])
    else []
  }

  /** A type given for the dialect is taken as it is. */
  ghost predicate TypeFits(text: string, t: ColumnType) {
    if t.dialectType.Some? then WritesType(text, t.dialectType.value, [], t.isArray == Some(true))
    else WritesType(text, TypeName(t.kind), TypeNumbers(t), t.isArray == Some(true))
  }

  /** The text a quoted literal stands for: two quotes inside are one, one alone ends it. */
  function ReadQuoted(text: string): Option<string> {
    if |text| < 2 || text[0] != '\'' || text[|text| - 1] != '\'' then None else Unescape(text[1..|text| - 1])
  }

  function Unescape(text: string): Option<string> {
    if text == "" then Some("")
    else if text[0] != '\'' then
      match Unescape(text[1..]) case None => None case Some(rest) => Some([text[0]] + rest)
    else if |text| < 2 || text[1] != '\'' then None
    else match Unescape(text[2..]) case None => None case Some(rest) => Some(['\''] + rest)
  }

  ghost predicate DefaultFits(text: string, d: ColumnDefault) {
    match d
    case ExpressionDefault(sql) => text == sql
    case LiteralDefault(NullLiteral) => text == "NULL"
    case LiteralDefault(PlainLiteral(written)) => text == written
    case LiteralDefault(TextLiteral(value)) => ReadQuoted(text) == Some(value)
  }

  /** The column refuses NULL exactly if the snapshot says so, and has its default and its type. */
  ghost predicate ColumnFits(d: Definition, c: Column) {
    && (d.notNull <==> c.nullable == Some(false))
    && (d.standard.Some? <==> c.standard.Some?)
    && (c.standard.Some? ==> d.standard.Some? && DefaultFits(d.standard.value, c.standard.value))
    && TypeFits(d.ctype, c.ctype)
  }

  lemma {:induction false} UnescapeEscape(text: string)
    ensures Unescape(Escape(text)) == Some(text)
  {
    if text != "" {
      UnescapeEscape(text[1..]);
      var rest := Escape(text[1..]);
      if text[0] == '\'' {
        assert Escape(text) == "\'\'" + rest;
        assert ("\'\'" + rest)[2..] == rest;
      } else {
        assert ([text[0]] + rest)[1..] == rest;
      }
      assert [text[0]] + text[1..] == text;
    }
  }

  lemma {:induction false} LiteralReadsBack(text: string)
    ensures ReadQuoted("'" + Escape(text) + "'") == Some(text)
  {
    var quoted := "'" + Escape(text) + "'";
    assert quoted[1..|quoted| - 1] == Escape(text);
    UnescapeEscape(text);
  }

  /** Every column definition the generator writes is the column of the snapshot. */
  lemma {:induction false} DefinitionFits(c: Column)
    ensures ColumnFits(DefinitionOf(c), c)
  {
    TypeIsWritten(c.ctype);
    if c.standard.Some? && c.standard.value.LiteralDefault? && c.standard.value.value.TextLiteral? {
      LiteralReadsBack(c.standard.value.value.text);
    }
  }

  lemma {:induction false} TypeIsWritten(t: ColumnType)
    ensures TypeFits(PgType(t), t)
  {
    BaseIsWritten(t);
    if t.isArray != Some(true) {
      assert PgBaseType(t) + "" == PgBaseType(t);
    }
  }

  lemma {:induction false} BaseIsWritten(t: ColumnType)
    ensures t.dialectType.Some? ==> WritesType(PgBaseType(t), t.dialectType.value, [], false)
    ensures t.dialectType.None? ==> WritesType(PgBaseType(t), TypeName(t.kind), TypeNumbers(t), false)
  {
    var base := PgBaseType(t);
    assert base + "" == base;
    if t.dialectType.None? && TypeNumbers(t) != [] {
      NumbersAreWritten(t);
    }
  }

  lemma {:induction false} NumbersAreWritten(t: ColumnType)
    requires t.dialectType.None? && TypeNumbers(t) != []
    ensures WritesType(PgBaseType(t), TypeName(t.kind), TypeNumbers(t), false)
  {
    var first := SqlText.Decimal(TypeNumbers(t)[0]);
    if |TypeNumbers(t)| == 1 {
      var name := TypeName(t.kind);
      assert name + "(" + first + ")" == name + ("(" + first + ")") + "";
    } else {
      var second := SqlText.Decimal(TypeNumbers(t)[1]);
      assert "numeric(" + first + ", " + second + ")" == "numeric" + ("(" + first + ", " + second + ")") + "";
    }
  }

  /** A column of a new table, or a new one of an old table, is as the snapshot says. */
  ghost predicate NewColumnFits(tables: Tables, a: seq<Table>, t: Table, c: Column) {
    var q := NameOf(t);
    q in tables && c.name in tables[q] && !(q in TableMap(a) && c.name in TableMap(a)[q]) ==> ColumnFits(tables[q][c.name], c)
  }

  /** A new table has exactly the primary key of the snapshot, in its order. */
  ghost predicate NewKeyFits(tables: Tables, keys: Keys, a: seq<Table>, t: Table) {
    var q := NameOf(t);
    q in tables && q !in TableMap(a) ==>
      q in keys && keys[q] == if t.primaryKey.Some? then t.primaryKey.value.columns else []
  }

  /** A table of `b` whose name is new was added under its own name. */
  lemma {:induction false} NewTableWasAdded(a: seq<Table>, b: seq<Table>, t: Table)
    requires Comparable(a, b) && t in b && NameOf(t) in After(a, b) && NameOf(t) !in TableMap(a)
    ensures t in DiffOfTables(a, b).addedTables
  {
    StatementsSucceed(a, b);
    var added := DiffOfTables(a, b).addedTables;
    var i :| 0 <= i < |added| && NameOf(added[i]) == NameOf(t);
    AddedTable(a, b, added[i]);
    InDatabase(b, t);
    InDatabase(b, added[i]);
  }

  lemma {:induction false} NewKeysFit(a: seq<Table>, b: seq<Table>, t: Table)
    requires Comparable(a, b) && t in b
    ensures NewKeyFits(After(a, b), KeyMap(a) + KeyMap(DiffOfTables(a, b).addedTables), a, t)
  {
    if NameOf(t) in After(a, b) && NameOf(t) !in TableMap(a) {
      NewTableWasAdded(a, b, t);
      OnlyStaysDistinct(b, KeyedDiff.Index(a, KeyOf), KeyOf);
      KeyMapFinds(DiffOfTables(a, b).addedTables, t);
    }
  }

  lemma {:induction false} NewColumnsFit(a: seq<Table>, b: seq<Table>, t: Table, c: Column)
    requires Comparable(a, b) && t in b && c in t.columns
    ensures NewColumnFits(After(a, b), a, t, c)
  {
    var q := NameOf(t);
    if q in After(a, b) && c.name in After(a, b)[q] && !(q in TableMap(a) && c.name in TableMap(a)[q]) {
      StatementsSucceed(a, b);
      assert TableOk(t);
      if q !in TableMap(a) {
        NewTableWasAdded(a, b, t);
      } else {
        AddedToOld(a, b, t, c);
      }
      var k :| 0 <= k < |t.columns| && t.columns[k] == c;
      KeyedDiff.IndexFinds(t.columns, ColumnName, k);
      DefinitionFits(c);
    }
  }

  lemma {:induction false} AddedToOld(a: seq<Table>, b: seq<Table>, t: Table, c: Column)
    requires Comparable(a, b) && t in b && c in t.columns && NameOf(t) in TableMap(a)
    requires NameOf(t) in After(a, b) && c.name in After(a, b)[NameOf(t)] && c.name !in TableMap(a)[NameOf(t)]
    ensures c.name in DefinitionsOf(t.columns) && After(a, b)[NameOf(t)][c.name] == DefinitionsOf(t.columns)[c.name]
  {
    StatementsSucceed(a, b);
    var ds := DiffOfTables(a, b).changedTables;
    var i :| 0 <= i < |ds| && FromName(ds[i]) == NameOf(t);
    ChangedTable(a, b, i);
    InDatabase(a, ds[i].from);
    InDatabase(b, t);
    InDatabase(b, ds[i].to);
    ColumnAfter(ds[i].from.columns, ds[i].to.columns, c.name);
  }

  // ----- The generator on snapshots -----------------------------------------------------------------------

  /** The canonical tables the generator compares. */
  function TablesOf(s: Snapshot, leq: StringOrder): seq<Table> {
    Normalize(s, leq).tables
  }

  lemma {:induction false} GeneratedFrom(to: Snapshot, from: Option<Snapshot>, leq: StringOrder)
    requires Sorting.TotalPreorder(leq) && Valid(to) && (from.Some? ==> Valid(from.value))
    ensures var a, b := TablesOf(FromOr(from, to.version), leq), TablesOf(to, leq);
      && Comparable(a, b)
      && GenerateUp(to, from, leq) == Ok(UpStatements(StatementsOf(DiffOfTables(a, b)), Withheld(a, b)))
      && PlanChanges(from, to, leq) == Ok(ChangesOf(DiffOfTables(a, b)))
  {
    var plain, older := FromOr(from, to.version), FromOr(from, 1);
    EmptyIsValid(leq);
    NormalizeKeepsValidity(older, leq);
    NormalizeKeepsValidity(to, leq);
    NormalizeIsIdempotent(older, leq);
    NormalizeIsIdempotent(to, leq);
    assert Valid(plain);
    DiffOfValid(plain, to, leq);
    DiffOfValid(Normalize(older, leq), Normalize(to, leq), leq);
  }

  lemma {:induction false} EmptyIsValid(leq: StringOrder)
    ensures Valid(EmptySnapshot(1))
  {
  }

  /**
   What the statements from `a` to `b` have made of a database: no column and no primary key of `a` has
   changed; new tables have the snapshot's primary key, and new columns its nullability, default and type;
   the columns differ from those of `b` only where something destructive was withheld; and if nothing was, they
   are those of `b` exactly when every `schema.name` text stands for one table.
   */
  ghost predicate Reached(a: seq<Table>, b: seq<Table>, after: Database, destructive: seq<Change>) {
    && (forall q :: q in TableMap(a) ==> OldTableKept(a, after, q))
    && (forall t, c :: t in b && c in t.columns ==> NewColumnFits(after.tables, a, t, c))
    && (forall t :: t in b ==> NewKeyFits(after.tables, after.keys, a, t))
    && (KeysAreFaithful(a, b) ==> DiffersOnlyAt(after.tables, b, destructive))
    && (destructive == [] ==> (after.tables == TableMap(b) <==> KeysAreFaithful(a, b)))
  }

  ghost predicate OldTableKept(a: seq<Table>, after: Database, q: Qualified)
    requires q in TableMap(a)
  {
    && q in after.tables && Keeps(after.tables[q], TableMap(a)[q])
    && q in KeyMap(a) && q in after.keys && after.keys[q] == KeyMap(a)[q]
  }

  lemma {:induction false} StatementsReach(a: seq<Table>, b: seq<Table>)
    requires Comparable(a, b)
    ensures var after := ExecuteAll(DatabaseOf(a), StatementsOf(DiffOfTables(a, b)));
      after.Some? && Reached(a, b, after.value, Withheld(a, b))
  {
    StatementsSucceed(a, b);
    var after := Database(After(a, b), KeyMap(a) + KeyMap(DiffOfTables(a, b).addedTables));
    forall q | q in TableMap(a) ensures OldTableKept(a, after, q) {
      OldTableStays(a, b, q);
    }
    forall t, c | t in b && c in t.columns ensures NewColumnFits(after.tables, a, t, c) {
      NewColumnsFit(a, b, t, c);
    }
    forall t | t in b ensures NewKeyFits(after.tables, after.keys, a, t) {
      NewKeysFit(a, b, t);
    }
    ColumnsReach(a, b);
  }

  lemma {:induction false} OldTableStays(a: seq<Table>, b: seq<Table>, q: Qualified)
    requires Comparable(a, b) && q in TableMap(a)
    ensures OldTableKept(a, Database(After(a, b), KeyMap(a) + KeyMap(DiffOfTables(a, b).addedTables)), q)
  {
    OldColumnsStay(a, b, q);
    KeyMapNames(a);
    KeyMapNames(DiffOfTables(a, b).addedTables);
    AddedNamesAreNew(a, b);
  }

  lemma {:induction false} ColumnsReach(a: seq<Table>, b: seq<Table>)
    requires Comparable(a, b)
    ensures KeysAreFaithful(a, b) ==> DiffersOnlyAt(After(a, b), b, Withheld(a, b))
    ensures Withheld(a, b) == [] ==> (After(a, b) == TableMap(b) <==> KeysAreFaithful(a, b))
  {
    if KeysAreFaithful(a, b) {
      LeftOversAreListed(a, b);
      if Withheld(a, b) == [] {
        DiffersNowhere(After(a, b), b);
      }
    } else {
      UnfaithfulKeyMissesATable(a, b);
    }
  }

  /** Planning throws exactly for an invalid snapshot. */
  lemma {:induction false} PlanThrowsIff(to: Snapshot, from: Option<Snapshot>, leq: StringOrder)
    requires Sorting.TotalPreorder(leq)
    ensures PlanChanges(from, to, leq).Ok? <==> Valid(to) && (from.Some? ==> Valid(from.value))
    ensures GenerateUp(to, from, leq).Ok? <==> Valid(to) && (from.Some? ==> Valid(from.value))
  {
    EmptyIsValid(leq);
    NormalizeKeepsValidity(FromOr(from, 1), leq);
    NormalizeKeepsValidity(to, leq);
  }

  /**
   For valid snapshots: the statements are the additive changes one for one, the others are reported; on a
   database that is as `from` says no statement is refused, and `to` is reached as far as `Reached` says.
   */
  lemma {:induction false} UpStatementsReachTo(to: Snapshot, from: Option<Snapshot>, leq: StringOrder)
    requires Sorting.TotalPreorder(leq) && Valid(to) && (from.Some? ==> Valid(from.value))
    ensures var a, b := TablesOf(FromOr(from, to.version), leq), TablesOf(to, leq);
      var up, plan := GenerateUp(to, from, leq), PlanChanges(from, to, leq);
      && up.Ok? && plan.Ok?
      && Correspond(up.value.statements, Additive(plan.value))
      && up.value.destructive == Destructive(plan.value)
      && var after := ExecuteAll(DatabaseOf(a), up.value.statements);
      after.Some? && Reached(a, b, after.value, up.value.destructive)
  {
    var a, b := TablesOf(FromOr(from, to.version), leq), TablesOf(to, leq);
    GeneratedFrom(to, from, leq);
    StatementsAreTheAdditiveChanges(DiffOfTables(a, b));
    StatementsReach(a, b);
  }

  // ----- What an empty plan means -----------------------------------------------------------------------

  ghost predicate SameColumns(a: seq<Table>, b: seq<Table>) {
    var older, newer := KeyedDiff.Index(a, KeyOf), KeyedDiff.Index(b, KeyOf);
    older.Keys == newer.Keys
    && forall k :: k in older && k in newer ==>
         KeyedDiff.Index(older[k].columns, ColumnName) == KeyedDiff.Index(newer[k].columns, ColumnName)
  }

  /**
   `isEmpty` says that the column maps of all tables are equal, and no more: constraints, and the
   order of columns, are not looked at.
   */
  lemma {:induction false} PlanIsEmptyIff(from: Snapshot, to: Snapshot, leq: StringOrder)
    requires Sorting.TotalPreorder(leq) && Valid(to) && Valid(from)
    ensures PlanChanges(Some(from), to, leq) == Ok([]) <==> SameColumns(TablesOf(from, leq), TablesOf(to, leq))
  {
    var a, b := TablesOf(from, leq), TablesOf(to, leq);
    var older, newer := KeyedDiff.Index(a, KeyOf), KeyedDiff.Index(b, KeyOf);
    GeneratedFrom(to, Some(from), leq);
    var diff := DiffOfTables(a, b);
    if ChangesOf(diff) == [] {
      EmptyPlanMeans(a, b);
    }
    if SameColumns(a, b) {
      SameColumnsLeaveNothing(a, b);
    }
  }

  lemma {:induction false} NoChangesWithin(ds: seq<TableDiff>)
    ensures ChangesWithinAll(ds) == [] <==> forall i :: 0 <= i < |ds| ==> ds[i].columns == KeyedDiff.Delta([], [], [])
  {
    if ds != [] {
      NoChangesWithin(ds[1..]);
      assert ChangesWithin(ds[0]) == [] <==> ds[0].columns == KeyedDiff.Delta([], [], []);
      assert forall i :: 0 < i < |ds| ==> ds[i] == ds[1..][i - 1];
    }
  }

  lemma {:induction false} NoTablesComeOrGo(a: seq<Table>, b: seq<Table>)
    requires DiffOfTables(a, b).addedTables == [] && DiffOfTables(a, b).removedTables == []
    ensures KeyedDiff.Index(a, KeyOf).Keys == KeyedDiff.Index(b, KeyOf).Keys
  {
    var older, newer := KeyedDiff.Index(a, KeyOf), KeyedDiff.Index(b, KeyOf);
    forall k ensures k in older <==> k in newer {
      KeyedDiff.RemovedAt(a, newer, KeyOf, k);
      KeyedDiff.RemovedAt(b, older, KeyOf, k);
    }
  }

  lemma {:induction false} EmptyPlanMeans(a: seq<Table>, b: seq<Table>)
    requires Comparable(a, b) && ChangesOf(DiffOfTables(a, b)) == []
    ensures SameColumns(a, b)
  {
    EmptyChanges(DiffOfTables(a, b));
    NoTablesComeOrGo(a, b);
    KeptTablesAgree(a, b);
  }

  lemma {:induction false} KeptTablesAgree(a: seq<Table>, b: seq<Table>)
    requires Comparable(a, b) && ChangesWithinAll(DiffOfTables(a, b).changedTables) == []
    ensures var older, newer := KeyedDiff.Index(a, KeyOf), KeyedDiff.Index(b, KeyOf);
      forall k :: k in older && k in newer ==>
        KeyedDiff.Index(older[k].columns, ColumnName) == KeyedDiff.Index(newer[k].columns, ColumnName)
  {
    var older, newer := KeyedDiff.Index(a, KeyOf), KeyedDiff.Index(b, KeyOf);
    forall k | k in older && k in newer
      ensures KeyedDiff.Index(older[k].columns, ColumnName) == KeyedDiff.Index(newer[k].columns, ColumnName)
    {
      if older[k] != newer[k] {
        UnchangedColumns(a, b, k);
      }
    }
  }

  lemma {:induction false} EmptyChanges(diff: SnapshotDiff)
    requires ChangesOf(diff) == []
    ensures diff.addedTables == [] && diff.removedTables == [] && ChangesWithinAll(diff.changedTables) == []
  {
    assert |TableChanges(CreateTableChange, diff.addedTables, false)| == |diff.addedTables|;
    assert |TableChanges(DropTableChange, diff.removedTables, true)| == |diff.removedTables|;
  }

  lemma {:induction false} UnchangedColumns(a: seq<Table>, b: seq<Table>, k: string)
    requires Comparable(a, b) && ChangesWithinAll(DiffOfTables(a, b).changedTables) == []
    requires k in KeyedDiff.Index(a, KeyOf) && k in KeyedDiff.Index(b, KeyOf)
    requires KeyedDiff.Index(a, KeyOf)[k] != KeyedDiff.Index(b, KeyOf)[k]
    ensures KeyedDiff.Index(KeyedDiff.Index(a, KeyOf)[k].columns, ColumnName)
         == KeyedDiff.Index(KeyedDiff.Index(b, KeyOf)[k].columns, ColumnName)
  {
    var x, y := KeyedDiff.Index(a, KeyOf)[k], KeyedDiff.Index(b, KeyOf)[k];
    var changed, ds := KeyedDiff.Diff(a, b, KeyOf).changed, DiffOfTables(a, b).changedTables;
    KeyedDiff.ChangedAt(a, b, KeyOf, k);
    var i :| 0 <= i < |changed| && changed[i] == (x, y);
    NoChangesWithin(ds);
    assert ds[i].columns == KeyedDiff.Delta([], [], []);
    assert TableOk(x) && TableOk(y);
    KeyedDiff.DiffEmptyIff(x.columns, y.columns, ColumnName);
  }

  lemma {:induction false} NoTableIsNewOrGone(a: seq<Table>, b: seq<Table>)
    requires Comparable(a, b) && KeyedDiff.Index(a, KeyOf).Keys == KeyedDiff.Index(b, KeyOf).Keys
    ensures DiffOfTables(a, b).addedTables == [] && DiffOfTables(a, b).removedTables == []
  {
    OnlyNothing(b, KeyedDiff.Index(a, KeyOf));
    OnlyNothing(a, KeyedDiff.Index(b, KeyOf));
  }

  lemma {:induction false} OnlyNothing(ts: seq<Table>, other: map<string, Table>)
    requires forall k :: k in KeyedDiff.Index(ts, KeyOf) ==> k in other
    ensures KeyedDiff.Only(ts, other, KeyOf) == []
  {
    var only := KeyedDiff.Only(ts, other, KeyOf);
    if |only| > 0 {
      KeyedDiff.OnlyIs(ts, other, KeyOf, only[0]);
      KeyedDiff.HasKeyOf(ts, KeyOf, KeyOf(only[0]));
      assert false;
    }
  }

  lemma {:induction false} SameColumnsLeaveNothing(a: seq<Table>, b: seq<Table>)
    requires Comparable(a, b) && SameColumns(a, b)
    ensures ChangesOf(DiffOfTables(a, b)) == []
  {
    var diff := DiffOfTables(a, b);
    NoTableIsNewOrGone(a, b);
    forall i | 0 <= i < |diff.changedTables| ensures diff.changedTables[i].columns == KeyedDiff.Delta([], [], []) {
      SameColumnsWithin(a, b, i);
    }
    NoChangesWithin(diff.changedTables);
  }

  lemma {:induction false} SameColumnsWithin(a: seq<Table>, b: seq<Table>, i: nat)
    requires Comparable(a, b) && SameColumns(a, b) && i < |DiffOfTables(a, b).changedTables|
    ensures DiffOfTables(a, b).changedTables[i].columns == KeyedDiff.Delta([], [], [])
  {
    var d := DiffOfTables(a, b).changedTables[i];
    ChangedTable(a, b, i);
    InDatabase(a, d.from);
    InDatabase(b, d.to);
    assert TableOk(d.from) && TableOk(d.to);
    KeyedDiff.DiffEmptyIff(d.from.columns, d.to.columns, ColumnName);
  }
}
