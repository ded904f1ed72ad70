/**
 Schema snapshots: validation, the canonical form, and the difference of two snapshots. Strings
 are compared by `localeCompare`, an unknown total preorder of strings. JSON text stands for the
 value it encodes, so a snapshot's canonical text is its normalized value.
 */
module Schema {
  import Sorting
  import KeyedDiff

  datatype Option<T> = None | Some(value: T)

  datatype Result<T, E> = Ok(value: T) | Err(error: E)

  /** Free-form data, as entries in insertion order (the order its JSON text has). */
  type Metadata = seq<(string, string)>

  datatype ColumnType = ColumnType(kind: string, length: Option<nat>, precision: Option<nat>, scale: Option<nat>,
                                   isArray: Option<bool>, dialectType: Option<string>)

  datatype Literal = TextLiteral(text: string) | PlainLiteral(written: string) | NullLiteral

  datatype ColumnDefault = LiteralDefault(value: Literal) | ExpressionDefault(sql: string)

  datatype ColumnReference = ColumnReference(table: string, schema: Option<string>, column: string,
                                             onDelete: Option<string>, onUpdate: Option<string>)

  datatype Column = Column(name: string, ctype: ColumnType, nullable: Option<bool>, standard: Option<ColumnDefault>,
                           generated: Option<bool>, references: Option<ColumnReference>, metadata: Option<Metadata>)

  datatype PrimaryKey = PrimaryKey(name: Option<string>, columns: seq<string>, metadata: Option<Metadata>)

  datatype TableIndex = TableIndex(name: Option<string>, columns: seq<string>, unique: Option<bool>, metadata: Option<Metadata>)

  datatype Unique = Unique(name: Option<string>, columns: seq<string>, metadata: Option<Metadata>)

  datatype ForeignKey = ForeignKey(name: Option<string>, columns: seq<string>, table: string, schema: Option<string>,
                                   targets: seq<string>, onDelete: Option<string>, onUpdate: Option<string>,
                                   metadata: Option<Metadata>)

  datatype Check = Check(name: Option<string>, expression: string, metadata: Option<Metadata>)

  /** The four constraint lists may be left out. */
  datatype Table = Table(name: string, schema: Option<string>, columns: seq<Column>, primaryKey: Option<PrimaryKey>,
                         indexes: Option<seq<TableIndex>>, uniques: Option<seq<Unique>>,
                         foreignKeys: Option<seq<ForeignKey>>, checks: Option<seq<Check>>, metadata: Option<Metadata>)

  datatype Snapshot = Snapshot(version: int, dialect: Option<string>, tables: seq<Table>, metadata: Option<Metadata>)

  // ----- Keys ------------------------------------------------------------------------------------

  function TableKey(schema: Option<string>, name: string): string {
    (match schema case None => "" case Some(s) => s) + "." + name
  }

  function KeyOf(t: Table): string {
    TableKey(t.schema, t.name)
  }

  function Join(names: seq<string>): string {
    if names == [] then "" else if |names| == 1 then names[0] else names[0] + "," + Join(names[1..])
  }

  /** The sort key of a constraint: its name, or its columns. */
  function NameOr(name: Option<string>, columns: seq<string>): string {
    match name case Some(n) => n case None => Join(columns)
  }

  /** A table is known by `schema.name`, a constraint by its name or its columns with commas between them. */
  lemma {:induction false} KeysAreWritten(t: Table, name: string, columns: seq<string>, last: string)
    ensures t.schema.None? ==> KeyOf(t) == "." + t.name
    ensures t.schema.Some? ==> KeyOf(t) == t.schema.value + "." + t.name
    ensures NameOr(Some(name), columns) == name
    ensures NameOr(None, []) == "" && NameOr(None, [last]) == last
    ensures columns != [] ==> NameOr(None, columns + [last]) == NameOr(None, columns) + "," + last
  {
    assert "" + "." == ".";
    if columns != [] {
      JoinMore(columns, last);
    }
  }

  lemma {:induction false} JoinMore(columns: seq<string>, last: string)
    requires columns != []
    ensures Join(columns + [last]) == Join(columns) + "," + last
  {
    if |columns| > 1 {
      JoinMore(columns[1..], last);
      assert (columns + [last])[1..] == columns[1..] + [last];
    } else {
      assert (columns + [last])[1..] == [last];
    }
  }

  type StringOrder = (string, string) -> bool

  function TableLeq(leq: StringOrder): (Table, Table) -> bool {
    (a: Table, b: Table) => leq(KeyOf(a), KeyOf(b))
  }

  function IndexLeq(leq: StringOrder): (TableIndex, TableIndex) -> bool {
    (a: TableIndex, b: TableIndex) => leq(NameOr(a.name, a.columns), NameOr(b.name, b.columns))
  }

  function UniqueLeq(leq: StringOrder): (Unique, Unique) -> bool {
    (a: Unique, b: Unique) => leq(NameOr(a.name, a.columns), NameOr(b.name, b.columns))
  }

  function ForeignKeyLeq(leq: StringOrder): (ForeignKey, ForeignKey) -> bool {
    (a: ForeignKey, b: ForeignKey) => leq(NameOr(a.name, a.columns), NameOr(b.name, b.columns))
  }

  /** A check has no columns: without a name its key is empty. */
  function CheckLeq(leq: StringOrder): (Check, Check) -> bool {
    (a: Check, b: Check) => leq(NameOr(a.name, []), NameOr(b.name, []))
  }

  // ----- The canonical form -----------------------------------------------------------------------

  function Listed<T>(list: Option<seq<T>>): seq<T> {
    match list case None => [] case Some(items) => items
  }

  function NormalizeTable(t: Table, leq: StringOrder): Table {
    t.(indexes := Some(Sorting.Sort(Listed(t.indexes), IndexLeq(leq))),
       uniques := Some(Sorting.Sort(Listed(t.uniques), UniqueLeq(leq))),
       foreignKeys := Some(Sorting.Sort(Listed(t.foreignKeys), ForeignKeyLeq(leq))),
       checks := Some(Sorting.Sort(Listed(t.checks), CheckLeq(leq))))
  }

  function NormalizeTables(ts: seq<Table>, leq: StringOrder): (r: seq<Table>)
    ensures |r| == |ts| && forall i :: 0 <= i < |ts| ==> r[i] == NormalizeTable(ts[i], leq)
  {
    Sorting.Mapped(ts, t => NormalizeTable(t, leq))
  }

  /** Columns keep their order; tables and constraints are sorted. */
  function Normalize(s: Snapshot, leq: StringOrder): Snapshot {
    s.(tables := Sorting.Sort(NormalizeTables(s.tables, leq), TableLeq(leq)))
  }

  /** The keys of a list go up. */
  ghost predicate KeysGoUp<T>(items: seq<T>, key: T -> string, leq: StringOrder) {
    forall i, j :: 0 <= i < j < |items| ==> leq(key(items[i]), key(items[j]))
  }

  /** In a canonical form tables are in the order of their keys, and so are the constraints of each. */
  lemma {:induction false} CanonicalOrder(s: Snapshot, leq: StringOrder, t: Table)
    requires Sorting.TotalPreorder(leq) && t in Normalize(s, leq).tables
    ensures KeysGoUp(Normalize(s, leq).tables, KeyOf, leq)
    ensures t.indexes.Some? && KeysGoUp(t.indexes.value, (x: TableIndex) => NameOr(x.name, x.columns), leq)
    ensures t.uniques.Some? && KeysGoUp(t.uniques.value, (x: Unique) => NameOr(x.name, x.columns), leq)
    ensures t.foreignKeys.Some? && KeysGoUp(t.foreignKeys.value, (x: ForeignKey) => NameOr(x.name, x.columns), leq)
    ensures t.checks.Some? && KeysGoUp(t.checks.value, (x: Check) => NameOr(x.name, []), leq)
  {
    var normal := NormalizeTables(s.tables, leq);
    SortedKeysGoUp(normal, TableLeq(leq), KeyOf, leq);
    Sorting.SortKeepsItems(normal, TableLeq(leq));
    Sorting.SameItems(Normalize(s, leq).tables, normal, t);
    var i :| 0 <= i < |normal| && normal[i] == t;
    var u := s.tables[i];
    assert t == NormalizeTable(u, leq);
    SortedKeysGoUp(Listed(u.indexes), IndexLeq(leq), (x: TableIndex) => NameOr(x.name, x.columns), leq);
    SortedKeysGoUp(Listed(u.uniques), UniqueLeq(leq), (x: Unique) => NameOr(x.name, x.columns), leq);
    SortedKeysGoUp(Listed(u.foreignKeys), ForeignKeyLeq(leq), (x: ForeignKey) => NameOr(x.name, x.columns), leq);
    SortedKeysGoUp(Listed(u.checks), CheckLeq(leq), (x: Check) => NameOr(x.name, []), leq);
  }

  lemma {:induction false} SortedKeysGoUp<T(!new)>(items: seq<T>, order: (T, T) -> bool, key: T -> string, leq: StringOrder)
    requires Sorting.TotalPreorder(leq) && forall a, b :: order(a, b) <==> leq(key(a), key(b))
    ensures KeysGoUp(Sorting.Sort(items, order), key, leq)
  {
    Lifted(leq, order, key);
    Sorting.SortSorts(items, order);
  }

  /** `leq` lifted to a key of the items. */
  lemma Lifted<T(!new)>(leq: StringOrder, lifted: (T, T) -> bool, key: T -> string)
    requires Sorting.TotalPreorder(leq)
    requires forall a: T, b: T :: lifted(a, b) == leq(key(a), key(b))
    ensures Sorting.TotalPreorder(lifted)
  {
    forall a: T, b: T ensures lifted(a, b) || lifted(b, a) {
      assert leq(key(a), key(b)) || leq(key(b), key(a));
    }
    forall a: T, b: T, c: T | lifted(a, b) && lifted(b, c) ensures lifted(a, c) {
      assert leq(key(a), key(b)) && leq(key(b), key(c));
    }
  }

  lemma OrdersLift(leq: StringOrder)
    requires Sorting.TotalPreorder(leq)
    ensures Sorting.TotalPreorder(TableLeq(leq)) && Sorting.TotalPreorder(IndexLeq(leq))
    ensures Sorting.TotalPreorder(UniqueLeq(leq)) && Sorting.TotalPreorder(ForeignKeyLeq(leq))
    ensures Sorting.TotalPreorder(CheckLeq(leq))
  {
    Lifted(leq, TableLeq(leq), KeyOf);
    Lifted(leq, IndexLeq(leq), (x: TableIndex) => NameOr(x.name, x.columns));
    Lifted(leq, UniqueLeq(leq), (x: Unique) => NameOr(x.name, x.columns));
    Lifted(leq, ForeignKeyLeq(leq), (x: ForeignKey) => NameOr(x.name, x.columns));
    Lifted(leq, CheckLeq(leq), (x: Check) => NameOr(x.name, []));
  }

  lemma NormalizeTableTwice(t: Table, leq: StringOrder)
    requires Sorting.TotalPreorder(leq)
    ensures NormalizeTable(NormalizeTable(t, leq), leq) == NormalizeTable(t, leq)
  {
    OrdersLift(leq);
    Sorting.SortTwice(Listed(t.indexes), IndexLeq(leq));
    Sorting.SortTwice(Listed(t.uniques), UniqueLeq(leq));
    Sorting.SortTwice(Listed(t.foreignKeys), ForeignKeyLeq(leq));
    Sorting.SortTwice(Listed(t.checks), CheckLeq(leq));
  }

  lemma TablesOfNormalized(s: Snapshot, leq: StringOrder)
    ensures multiset(Normalize(s, leq).tables) == multiset(NormalizeTables(s.tables, leq))
    ensures forall t :: t in Normalize(s, leq).tables ==> exists i :: 0 <= i < |s.tables| && t == NormalizeTable(s.tables[i], leq)
  {
    var ts := NormalizeTables(s.tables, leq);
    Sorting.SortKeepsItems(ts, TableLeq(leq));
    forall t | t in Normalize(s, leq).tables ensures exists i :: 0 <= i < |s.tables| && t == NormalizeTable(s.tables[i], leq) {
      Sorting.SameItems(ts, Normalize(s, leq).tables, t);
      var i :| 0 <= i < |ts| && ts[i] == t;
    }
  }

  lemma NormalizeIsIdempotent(s: Snapshot, leq: StringOrder)
    requires Sorting.TotalPreorder(leq)
    ensures Normalize(Normalize(s, leq), leq) == Normalize(s, leq)
  {
    OrdersLift(leq);
    var ts := Normalize(s, leq).tables;
    TablesOfNormalized(s, leq);
    forall i | 0 <= i < |ts| ensures NormalizeTable(ts[i], leq) == ts[i] {
      assert ts[i] in ts;
      var j :| 0 <= j < |s.tables| && ts[i] == NormalizeTable(s.tables[j], leq);
      NormalizeTableTwice(s.tables[j], leq);
    }
    assert NormalizeTables(ts, leq) == ts;
    Sorting.SortTwice(NormalizeTables(s.tables, leq), TableLeq(leq));
  }

  // ----- Arrangement does not matter ---------------------------------------------------------------

  /** The same table with its constraint lists in another order. */
  ghost predicate Rearranged(a: Table, b: Table) {
    && b == a.(indexes := b.indexes, uniques := b.uniques, foreignKeys := b.foreignKeys, checks := b.checks)
    && multiset(Listed(a.indexes)) == multiset(Listed(b.indexes))
    && multiset(Listed(a.uniques)) == multiset(Listed(b.uniques))
    && multiset(Listed(a.foreignKeys)) == multiset(Listed(b.foreignKeys))
    && multiset(Listed(a.checks)) == multiset(Listed(b.checks))
  }

  /** Constraints with one sort key are one constraint. */
  ghost predicate ConstraintKeysDecide(t: Table, leq: StringOrder) {
    && Sorting.TiesAreEqual(Listed(t.indexes), IndexLeq(leq))
    && Sorting.TiesAreEqual(Listed(t.uniques), UniqueLeq(leq))
    && Sorting.TiesAreEqual(Listed(t.foreignKeys), ForeignKeyLeq(leq))
    && Sorting.TiesAreEqual(Listed(t.checks), CheckLeq(leq))
  }

  /** Every rearrangement of a table has one canonical form exactly when its constraint keys decide. */
  lemma TableFormIsUniqueIff(t: Table, leq: StringOrder)
    requires Sorting.TotalPreorder(leq)
    ensures ConstraintKeysDecide(t, leq)
       <==> forall u: Table :: Rearranged(t, u) ==> NormalizeTable(u, leq) == NormalizeTable(t, leq)
  {
    OrdersLift(leq);
    if ConstraintKeysDecide(t, leq) {
      forall u: Table | Rearranged(t, u) ensures NormalizeTable(u, leq) == NormalizeTable(t, leq) {
        Sorting.SortIgnoresArrangement(Listed(t.indexes), Listed(u.indexes), IndexLeq(leq));
        Sorting.SortIgnoresArrangement(Listed(t.uniques), Listed(u.uniques), UniqueLeq(leq));
        Sorting.SortIgnoresArrangement(Listed(t.foreignKeys), Listed(u.foreignKeys), ForeignKeyLeq(leq));
        Sorting.SortIgnoresArrangement(Listed(t.checks), Listed(u.checks), CheckLeq(leq));
      }
    } else {
      var u := OtherArrangement(t, leq);
      assert Rearranged(t, u) && NormalizeTable(u, leq) != NormalizeTable(t, leq);
    }
  }

  lemma OtherArrangement(t: Table, leq: StringOrder) returns (u: Table)
    requires Sorting.TotalPreorder(leq) && !ConstraintKeysDecide(t, leq)
    ensures Rearranged(t, u) && NormalizeTable(u, leq) != NormalizeTable(t, leq)
  {
    OrdersLift(leq);
    Sorting.SortIgnoresArrangementIff(Listed(t.indexes), IndexLeq(leq));
    Sorting.SortIgnoresArrangementIff(Listed(t.uniques), UniqueLeq(leq));
    Sorting.SortIgnoresArrangementIff(Listed(t.foreignKeys), ForeignKeyLeq(leq));
    Sorting.SortIgnoresArrangementIff(Listed(t.checks), CheckLeq(leq));
    if !Sorting.TiesAreEqual(Listed(t.indexes), IndexLeq(leq)) {
      var ys: seq<TableIndex> :| multiset(ys) == multiset(Listed(t.indexes))
        && Sorting.Sort(ys, IndexLeq(leq)) != Sorting.Sort(Listed(t.indexes), IndexLeq(leq));
      u := t.(indexes := Some(ys));
    } else if !Sorting.TiesAreEqual(Listed(t.uniques), UniqueLeq(leq)) {
      var ys: seq<Unique> :| multiset(ys) == multiset(Listed(t.uniques))
        && Sorting.Sort(ys, UniqueLeq(leq)) != Sorting.Sort(Listed(t.uniques), UniqueLeq(leq));
      u := t.(uniques := Some(ys));
    } else if !Sorting.TiesAreEqual(Listed(t.foreignKeys), ForeignKeyLeq(leq)) {
      var ys: seq<ForeignKey> :| multiset(ys) == multiset(Listed(t.foreignKeys))
        && Sorting.Sort(ys, ForeignKeyLeq(leq)) != Sorting.Sort(Listed(t.foreignKeys), ForeignKeyLeq(leq));
      u := t.(foreignKeys := Some(ys));
    } else {
      var ys: seq<Check> :| multiset(ys) == multiset(Listed(t.checks))
        && Sorting.Sort(ys, CheckLeq(leq)) != Sorting.Sort(Listed(t.checks), CheckLeq(leq));
      u := t.(checks := Some(ys));
    }
  }

  /** Two checks without a name always tie: swapping different ones changes the canonical form. */
  lemma UnnamedChecksTie(t: Table, a: Check, b: Check, leq: StringOrder)
    requires Sorting.TotalPreorder(leq) && a != b && a.name == None && b.name == None && t.checks == Some([a, b])
    ensures !ConstraintKeysDecide(t, leq)
    ensures Rearranged(t, t.(checks := Some([b, a])))
    ensures NormalizeTable(t.(checks := Some([b, a])), leq) != NormalizeTable(t, leq)
  {
    var xs := [a, b];
    assert leq("", "") || leq("", "");
    assert NameOr(a.name, []) == NameOr(b.name, []) == "";
    assert xs[0] == a && xs[1] == b;
    assert a in xs && b in xs && CheckLeq(leq)(a, b) && CheckLeq(leq)(b, a);
    OrdersLift(leq);
    Sorting.SwappedTieShows(xs, 0, 1, CheckLeq(leq));
    assert xs[0 := xs[1]][1 := xs[0]] == [b, a];
  }

  /** The tables of `b` are those of `a`, in another order and each rearranged. */
  ghost predicate SameUpToOrder(a: Snapshot, middle: seq<Table>, b: Snapshot) {
    && b == a.(tables := b.tables)
    && |middle| == |a.tables| && multiset(middle) == multiset(b.tables)
    && forall i :: 0 <= i < |middle| ==> Rearranged(a.tables[i], middle[i])
  }

  /** Snapshots that differ in the order of tables and constraints only have one canonical form. */
  lemma ArrangementDoesNotMatter(a: Snapshot, middle: seq<Table>, b: Snapshot, leq: StringOrder)
    requires Sorting.TotalPreorder(leq) && SameUpToOrder(a, middle, b)
    requires Sorting.TiesAreEqual(NormalizeTables(a.tables, leq), TableLeq(leq))
    requires forall t :: t in a.tables ==> ConstraintKeysDecide(t, leq)
    ensures Normalize(a, leq) == Normalize(b, leq)
  {
    OrdersLift(leq);
    var left, right := NormalizeTables(a.tables, leq), NormalizeTables(b.tables, leq);
    forall i | 0 <= i < |middle| ensures NormalizeTable(middle[i], leq) == left[i] {
      assert a.tables[i] in a.tables;
      TableFormIsUniqueIff(a.tables[i], leq);
    }
    assert NormalizeTables(middle, leq) == left;
    NormalizeKeepsArrangement(middle, b.tables, leq);
    Sorting.SortIgnoresArrangement(left, right, TableLeq(leq));
  }

  lemma NormalizeKeepsArrangement(a: seq<Table>, b: seq<Table>, leq: StringOrder)
    requires multiset(a) == multiset(b)
    ensures multiset(NormalizeTables(a, leq)) == multiset(NormalizeTables(b, leq))
  {
    var f := (t: Table) => NormalizeTable(t, leq);
    Sorting.MappedItems(a, b, f);
    assert NormalizeTables(a, leq) == Sorting.Mapped(a, f);
    assert NormalizeTables(b, leq) == Sorting.Mapped(b, f);
  }

  // ----- Validity ------------------------------------------------------------------------------------

  predicate IsSpace(c: char) {
    ('\t' <= c <= '\r') || c == ' ' || c == '\U{A0}' || c == '\U{1680}' || ('\U{2000}' <= c <= '\U{200A}')
    || c == '\U{2028}' || c == '\U{2029}' || c == '\U{202F}' || c == '\U{205F}' || c == '\U{3000}' || c == '\U{FEFF}'
  }

  /** Something is left of the text after `trim()`. */
  predicate NonEmpty(text: string) {
    exists i :: 0 <= i < |text| && !IsSpace(text[i])
  }

  /** White space and line terminators as sections 12.2 and 12.3 of ECMA-262 list them. */
  const WHITE_SPACE: string :=
    "\t\n\U{B}\U{C}\r \U{A0}\U{1680}\U{2000}\U{2001}\U{2002}\U{2003}\U{2004}\U{2005}\U{2006}\U{2007}\U{2008}\U{2009}\U{200A}\U{2028}\U{2029}\U{202F}\U{205F}\U{3000}\U{FEFF}"

  /** A text is empty for the validation if it is nothing but white space. */
  lemma {:induction false} NonEmptyIff(text: string)
    ensures NonEmpty(text) <==> exists c :: c in text && c !in WHITE_SPACE
  {
    forall c: char ensures IsSpace(c) <==> c in WHITE_SPACE {
      SpaceIs(c);
    }
    if c :| c in text && c !in WHITE_SPACE {
      var i :| 0 <= i < |text| && text[i] == c;
    }
  }

  lemma {:induction false} SpaceIs(c: char)
    ensures IsSpace(c) <==> c in WHITE_SPACE
  {
  }

  function ColumnName(c: Column): string {
    c.name
  }

  predicate HasColumn(t: Table, name: string) {
    exists c :: c in t.columns && c.name == name
  }

  predicate ListOk(list: seq<string>, t: Table) {
    list != [] && forall n :: n in list ==> HasColumn(t, n)
  }

  ghost predicate TableOk(t: Table) {
    && NonEmpty(t.name)
    && (forall c :: c in t.columns ==> NonEmpty(c.name) && NonEmpty(c.ctype.kind))
    && KeyedDiff.DistinctKeys(t.columns, ColumnName)
    && (t.primaryKey.Some? ==> ListOk(t.primaryKey.value.columns, t))
    && (forall x :: x in Listed(t.indexes) ==> ListOk(x.columns, t))
    && (forall x :: x in Listed(t.uniques) ==> ListOk(x.columns, t))
    && (forall x :: x in Listed(t.foreignKeys) ==> ListOk(x.columns, t))
  }

  /** What `t` references in `u` exists there. */
  ghost predicate TargetsOk(t: Table, u: Table) {
    && (forall c :: c in t.columns && c.references.Some? ==> ReferenceOk(c.references.value, u))
    && (forall x :: x in Listed(t.foreignKeys) ==> ForeignKeyOk(x, u))
  }

  predicate ReferenceOk(r: ColumnReference, u: Table) {
    TableKey(r.schema, r.table) == KeyOf(u) ==> HasColumn(u, r.column)
  }

  predicate ForeignKeyOk(x: ForeignKey, u: Table) {
    TableKey(x.schema, x.table) == KeyOf(u) ==> forall n :: n in x.targets ==> HasColumn(u, n)
  }

  predicate HeaderOk(s: Snapshot) {
    s.version == 1 && (s.dialect.Some? ==> s.dialect.value in ["generic", "postgres", "sqlite", "mysql"])
  }

  ghost predicate TablesOk(ts: seq<Table>) {
    && (forall t :: t in ts ==> TableOk(t))
    && KeyedDiff.DistinctKeys(ts, KeyOf)
    && (forall t, u :: t in ts && u in ts ==> TargetsOk(t, u))
  }

  ghost predicate Valid(s: Snapshot) {
    HeaderOk(s) && TablesOk(s.tables)
  }

  lemma NormalizedItems(t: Table, leq: StringOrder)
    ensures forall x :: x in Listed(NormalizeTable(t, leq).indexes) <==> x in Listed(t.indexes)
    ensures forall x :: x in Listed(NormalizeTable(t, leq).uniques) <==> x in Listed(t.uniques)
    ensures forall x :: x in Listed(NormalizeTable(t, leq).foreignKeys) <==> x in Listed(t.foreignKeys)
  {
    Sorting.SortKeepsItems(Listed(t.indexes), IndexLeq(leq));
    Sorting.SortKeepsItems(Listed(t.uniques), UniqueLeq(leq));
    Sorting.SortKeepsItems(Listed(t.foreignKeys), ForeignKeyLeq(leq));
    var u := NormalizeTable(t, leq);
    forall x ensures x in Listed(u.indexes) <==> x in Listed(t.indexes) {
      Sorting.SameItems(Listed(u.indexes), Listed(t.indexes), x);
    }
    forall x ensures x in Listed(u.uniques) <==> x in Listed(t.uniques) {
      Sorting.SameItems(Listed(u.uniques), Listed(t.uniques), x);
    }
    forall x ensures x in Listed(u.foreignKeys) <==> x in Listed(t.foreignKeys) {
      Sorting.SameItems(Listed(u.foreignKeys), Listed(t.foreignKeys), x);
    }
  }

  lemma ColumnsDecide(t: Table, u: Table)
    requires t.columns == u.columns
    ensures forall n :: HasColumn(t, n) <==> HasColumn(u, n)
    ensures forall list :: ListOk(list, t) <==> ListOk(list, u)
  {
  }

  lemma NormalizedTableOk(t: Table, leq: StringOrder)
    ensures TableOk(NormalizeTable(t, leq)) <==> TableOk(t)
  {
    NormalizedItems(t, leq);
    ColumnsDecide(t, NormalizeTable(t, leq));
  }

  lemma NormalizedTargetsOk(t: Table, u: Table, leq: StringOrder)
    ensures TargetsOk(NormalizeTable(t, leq), NormalizeTable(u, leq)) <==> TargetsOk(t, u)
  {
    var u' := NormalizeTable(u, leq);
    NormalizedItems(t, leq);
    ColumnsDecide(u, u');
    assert KeyOf(u) == KeyOf(u');
    assert forall r :: ReferenceOk(r, u) <==> ReferenceOk(r, u');
    assert forall x :: ForeignKeyOk(x, u) <==> ForeignKeyOk(x, u');
  }

  /** The tables are the same up to their arrangement, so they are distinct together. */
  lemma NormalizedKeys(s: Snapshot, leq: StringOrder)
    ensures KeyedDiff.DistinctKeys(Normalize(s, leq).tables, KeyOf) <==> KeyedDiff.DistinctKeys(s.tables, KeyOf)
  {
    var plain, sorted := NormalizeTables(s.tables, leq), Normalize(s, leq).tables;
    var same := (a: Table, b: Table) => KeyOf(a) == KeyOf(b);
    TablesOfNormalized(s, leq);
    assert KeyedDiff.DistinctKeys(plain, KeyOf) <==> KeyedDiff.DistinctKeys(s.tables, KeyOf) by {
      assert forall i :: 0 <= i < |plain| ==> KeyOf(plain[i]) == KeyOf(s.tables[i]);
    }
    if Sorting.Apart(plain, same) {
      Sorting.ApartStays(plain, sorted, same);
    }
    if Sorting.Apart(sorted, same) {
      Sorting.ApartStays(sorted, plain, same);
    }
    DistinctIsApart(plain);
    DistinctIsApart(sorted);
  }

  lemma DistinctIsApart(ts: seq<Table>)
    ensures KeyedDiff.DistinctKeys(ts, KeyOf) <==> Sorting.Apart(ts, (a: Table, b: Table) => KeyOf(a) == KeyOf(b))
  {
    var same := (a: Table, b: Table) => KeyOf(a) == KeyOf(b);
    assert forall i, j :: 0 <= i < j < |ts| ==> (same(ts[i], ts[j]) <==> KeyOf(ts[i]) == KeyOf(ts[j]));
  }

  lemma NormalizedIsThere(s: Snapshot, leq: StringOrder)
    ensures forall t :: t in s.tables ==> NormalizeTable(t, leq) in Normalize(s, leq).tables
  {
    var ts, sorted := s.tables, Normalize(s, leq).tables;
    var plain := NormalizeTables(ts, leq);
    TablesOfNormalized(s, leq);
    forall t | t in ts ensures NormalizeTable(t, leq) in sorted {
      var i :| 0 <= i < |ts| && ts[i] == t;
      assert plain[i] in plain;
      Sorting.SameItems(plain, sorted, plain[i]);
    }
  }

  lemma EachTableOk(s: Snapshot, leq: StringOrder)
    ensures (forall t :: t in Normalize(s, leq).tables ==> TableOk(t)) <==> (forall t :: t in s.tables ==> TableOk(t))
  {
    var ts, sorted := s.tables, Normalize(s, leq).tables;
    TablesOfNormalized(s, leq);
    NormalizedIsThere(s, leq);
    forall t | t in ts ensures TableOk(NormalizeTable(t, leq)) <==> TableOk(t) {
      NormalizedTableOk(t, leq);
    }
    forall t | t in sorted ensures exists u :: u in ts && t == NormalizeTable(u, leq) {
      var i :| 0 <= i < |ts| && t == NormalizeTable(ts[i], leq);
      assert ts[i] in ts;
    }
  }

  lemma {:induction false} EachTargetOk(s: Snapshot, leq: StringOrder)
    ensures (forall t, u :: t in Normalize(s, leq).tables && u in Normalize(s, leq).tables ==> TargetsOk(t, u))
       <==> (forall t, u :: t in s.tables && u in s.tables ==> TargetsOk(t, u))
  {
    var ts, sorted := s.tables, Normalize(s, leq).tables;
    if forall t, u :: t in ts && u in ts ==> TargetsOk(t, u) {
      TargetsCarryOver(s, leq);
    }
    if forall t, u :: t in sorted && u in sorted ==> TargetsOk(t, u) {
      NormalizedIsThere(s, leq);
      forall t, u | t in ts && u in ts ensures TargetsOk(t, u) {
        NormalizedTargetsOk(t, u, leq);
      }
    }
  }

  lemma {:induction false} TargetsCarryOver(s: Snapshot, leq: StringOrder)
    requires forall t, u :: t in s.tables && u in s.tables ==> TargetsOk(t, u)
    ensures forall t, u :: t in Normalize(s, leq).tables && u in Normalize(s, leq).tables ==> TargetsOk(t, u)
  {
    var ts, sorted := s.tables, Normalize(s, leq).tables;
    TablesOfNormalized(s, leq);
    forall t, u | t in sorted && u in sorted ensures TargetsOk(t, u) {
      var i :| 0 <= i < |ts| && t == NormalizeTable(ts[i], leq);
      var j :| 0 <= j < |ts| && u == NormalizeTable(ts[j], leq);
      assert ts[i] in ts && ts[j] in ts;
      NormalizedTargetsOk(ts[i], ts[j], leq);
    }
  }

  /** A snapshot is valid exactly when its canonical form is. */
  lemma NormalizeKeepsValidity(s: Snapshot, leq: StringOrder)
    ensures Valid(Normalize(s, leq)) <==> Valid(s)
  {
    NormalizedKeys(s, leq);
    EachTableOk(s, leq);
    EachTargetOk(s, leq);
  }

  datatype Failure = InvalidSnapshot

  /** `defineSchemaSnapshot`, and `deserializeSchemaSnapshot` of the text of `input`. */
  ghost function Define(input: Snapshot, leq: StringOrder): Result<Snapshot, Failure> {
    var s := Normalize(input, leq);
    if Valid(s) then Ok(s) else Err(InvalidSnapshot)
  }

  /** Reading back the canonical text gives the canonical form, and fails exactly for an invalid snapshot. */
  lemma SerializeRoundTrip(s: Snapshot, leq: StringOrder)
    requires Sorting.TotalPreorder(leq)
    ensures Define(Normalize(s, leq), leq) == if Valid(s) then Ok(Normalize(s, leq)) else Err(InvalidSnapshot)
  {
    NormalizeIsIdempotent(s, leq);
    NormalizeKeepsValidity(s, leq);
  }

  // ----- The validation loops --------------------------------------------------------------------------

  datatype Issue =
    | InvalidVersion | InvalidDialect
    | InvalidTable | DuplicateTable
    | InvalidColumn | DuplicateColumn | UnknownColumn
    | InvalidConstraint | UnknownTarget

  ghost predicate Known(list: seq<string>, names: set<string>) {
    list != [] && forall n :: n in list ==> n in names
  }

  method ValidateColumnList(names: seq<string>, columns: set<string>) returns (issues: seq<Issue>)
    ensures issues == [] <==> Known(names, columns)
  {
    if names == [] {
      return [InvalidConstraint];
    }
    issues := [];
    for i := 0 to |names|
      invariant issues == [] <==> forall n :: n in names[..i] ==> n in columns
    {
      assert names[..i + 1] == names[..i] + [names[i]];
      if names[i] !in columns {
        issues := issues + [UnknownColumn];
      }
    }
    assert names[..|names|] == names;
  }

  ghost predicate ColumnsOk(columns: seq<Column>) {
    && (forall c :: c in columns ==> NonEmpty(c.name) && NonEmpty(c.ctype.kind))
    && KeyedDiff.DistinctKeys(columns, ColumnName)
  }

  lemma DistinctSnoc<T>(items: seq<T>, last: T, key: T -> string)
    ensures KeyedDiff.DistinctKeys(items + [last], key)
       <==> KeyedDiff.DistinctKeys(items, key) && forall x :: x in items ==> key(x) != key(last)
  {
    var more := items + [last];
    if KeyedDiff.DistinctKeys(more, key) {
      forall x | x in items ensures key(x) != key(last) {
        var i :| 0 <= i < |items| && items[i] == x;
        assert more[i] == x && more[|items|] == last;
      }
      forall i, j | 0 <= i < j < |items| ensures key(items[i]) != key(items[j]) {
        assert more[i] == items[i] && more[j] == items[j];
      }
    }
  }

  /** The column part of `validateTable`; `names` are the usable column names. */
  method ValidateColumns(columns: seq<Column>) returns (issues: seq<Issue>, names: set<string>)
    ensures issues == [] <==> ColumnsOk(columns)
    ensures issues == [] ==> names == set c | c in columns :: c.name
  {
    issues, names := [], {};
    for i := 0 to |columns|
      invariant issues == [] <==> ColumnsOk(columns[..i])
      invariant issues == [] ==> names == set c | c in columns[..i] :: c.name
    {
      var column := columns[i];
      assert columns[..i + 1] == columns[..i] + [column];
      DistinctSnoc(columns[..i], column, ColumnName);
      if !NonEmpty(column.name) {
        issues := issues + [InvalidColumn];
      } else {
        if column.name in names {
          issues := issues + [DuplicateColumn];
        }
        names := names + {column.name};
        if !NonEmpty(column.ctype.kind) {
          issues := issues + [InvalidColumn];
        }
      }
    }
    assert columns[..|columns|] == columns;
  }

  /** `validateNamedColumnLists`, for the column lists of one kind of constraint. */
  method ValidateColumnLists(lists: seq<seq<string>>, names: set<string>) returns (issues: seq<Issue>)
    ensures issues == [] <==> forall list :: list in lists ==> Known(list, names)
  {
    issues := [];
    for i := 0 to |lists|
      invariant issues == [] <==> forall list :: list in lists[..i] ==> Known(list, names)
    {
      assert lists[..i + 1] == lists[..i] + [lists[i]];
      var more := ValidateColumnList(lists[i], names);
      issues := issues + more;
    }
    assert lists[..|lists|] == lists;
  }

  function IndexLists(xs: seq<TableIndex>): seq<seq<string>> {
    Sorting.Mapped(xs, (x: TableIndex) => x.columns)
  }

  function UniqueLists(xs: seq<Unique>): seq<seq<string>> {
    Sorting.Mapped(xs, (x: Unique) => x.columns)
  }

  function ForeignKeyLists(xs: seq<ForeignKey>): seq<seq<string>> {
    Sorting.Mapped(xs, (x: ForeignKey) => x.columns)
  }

  /** Everything `validateTable` checks, after the table's name. */
  method ValidateTable(t: Table) returns (issues: seq<Issue>)
    ensures NonEmpty(t.name) ==> (issues == [] <==> TableOk(t))
  {
    var columnIssues, names := ValidateColumns(t.columns);
    var keyIssues: seq<Issue> := [];
    if t.primaryKey.Some? {
      keyIssues := ValidateColumnList(t.primaryKey.value.columns, names);
    }
    var indexIssues := ValidateColumnLists(IndexLists(Listed(t.indexes)), names);
    var uniqueIssues := ValidateColumnLists(UniqueLists(Listed(t.uniques)), names);
    var foreignIssues := ValidateColumnLists(ForeignKeyLists(Listed(t.foreignKeys)), names);
    issues := columnIssues + keyIssues + indexIssues + uniqueIssues + foreignIssues;
    if columnIssues == [] {
      ListsAreOk(t, names);
    }
  }

  lemma ListsAreOk(t: Table, names: set<string>)
    requires names == set c | c in t.columns :: c.name
    ensures forall list :: ListOk(list, t) <==> Known(list, names)
    ensures (forall list :: list in IndexLists(Listed(t.indexes)) ==> ListOk(list, t))
       <==> (forall x :: x in Listed(t.indexes) ==> ListOk(x.columns, t))
    ensures (forall list :: list in UniqueLists(Listed(t.uniques)) ==> ListOk(list, t))
       <==> (forall x :: x in Listed(t.uniques) ==> ListOk(x.columns, t))
    ensures (forall list :: list in ForeignKeyLists(Listed(t.foreignKeys)) ==> ListOk(list, t))
       <==> (forall x :: x in Listed(t.foreignKeys) ==> ListOk(x.columns, t))
  {
    assert forall n :: HasColumn(t, n) <==> n in names;
    MappedAll(Listed(t.indexes), (x: TableIndex) => x.columns, (list: seq<string>) => ListOk(list, t));
    MappedAll(Listed(t.uniques), (x: Unique) => x.columns, (list: seq<string>) => ListOk(list, t));
    MappedAll(Listed(t.foreignKeys), (x: ForeignKey) => x.columns, (list: seq<string>) => ListOk(list, t));
  }

  lemma {:induction false} MappedAll<T(!new), U(!new)>(xs: seq<T>, f: T -> U, p: U -> bool)
    ensures (forall y :: y in Sorting.Mapped(xs, f) ==> p(y)) <==> (forall x :: x in xs ==> p(f(x)))
  {
    var ys := Sorting.Mapped(xs, f);
    if forall y :: y in ys ==> p(y) {
      forall x | x in xs ensures p(f(x)) {
        var i :| 0 <= i < |xs| && xs[i] == x;
        assert ys[i] in ys;
      }
    }
    if forall x :: x in xs ==> p(f(x)) {
      forall y | y in ys ensures p(y) {
        var i :| 0 <= i < |ys| && ys[i] == y;
        assert xs[i] in xs;
      }
    }
  }

  /** The references of one table, against the table that each key finds. */
  ghost predicate TargetsFound(t: Table, byKey: map<string, Table>) {
    && (forall c :: c in t.columns && c.references.Some? ==> ReferenceFound(c.references.value, byKey))
    && (forall x :: x in Listed(t.foreignKeys) ==> ForeignKeyFound(x, byKey))
  }

  ghost predicate ReferenceFound(r: ColumnReference, byKey: map<string, Table>) {
    TableKey(r.schema, r.table) in byKey ==> HasColumn(byKey[TableKey(r.schema, r.table)], r.column)
  }

  ghost predicate ForeignKeyFound(x: ForeignKey, byKey: map<string, Table>) {
    TableKey(x.schema, x.table) in byKey ==> forall n :: n in x.targets ==> HasColumn(byKey[TableKey(x.schema, x.table)], n)
  }

  method ValidateTargetColumns(names: seq<string>, target: Table) returns (issues: seq<Issue>)
    ensures issues == [] <==> forall n :: n in names ==> HasColumn(target, n)
  {
    issues := [];
    for i := 0 to |names|
      invariant issues == [] <==> forall n :: n in names[..i] ==> HasColumn(target, n)
    {
      assert names[..i + 1] == names[..i] + [names[i]];
      if !HasColumn(target, names[i]) {
        issues := issues + [UnknownTarget];
      }
    }
    assert names[..|names|] == names;
  }

  /** `validateForeignKeyTargets`. */
  method ValidateTargets(t: Table, byKey: map<string, Table>) returns (issues: seq<Issue>)
    ensures issues == [] <==> TargetsFound(t, byKey)
  {
    issues := [];
    for i := 0 to |t.columns|
      invariant issues == [] <==>
        forall c :: c in t.columns[..i] && c.references.Some? ==> ReferenceFound(c.references.value, byKey)
    {
      assert t.columns[..i + 1] == t.columns[..i] + [t.columns[i]];
      var reference := t.columns[i].references;
      if reference.Some? {
        var key := TableKey(reference.value.schema, reference.value.table);
        if key in byKey && !HasColumn(byKey[key], reference.value.column) {
          issues := issues + [UnknownTarget];
        }
      }
    }
    assert t.columns[..|t.columns|] == t.columns;
    var keys := Listed(t.foreignKeys);
    var more: seq<Issue> := [];
    for i := 0 to |keys|
      invariant more == [] <==> forall x :: x in keys[..i] ==> ForeignKeyFound(x, byKey)
    {
      assert keys[..i + 1] == keys[..i] + [keys[i]];
      var key := TableKey(keys[i].schema, keys[i].table);
      if key in byKey {
        var found := ValidateTargetColumns(keys[i].targets, byKey[key]);
        assert ForeignKeyFound(keys[i], byKey) <==> found == [];
        more := more + found;
      }
    }
    assert keys[..|keys|] == keys;
    issues := issues + more;
  }

  lemma {:induction false} FoundIsOk(ts: seq<Table>, t: Table)
    requires KeyedDiff.DistinctKeys(ts, KeyOf)
    ensures TargetsFound(t, KeyedDiff.Index(ts, KeyOf)) <==> forall u :: u in ts ==> TargetsOk(t, u)
  {
    var byKey := KeyedDiff.Index(ts, KeyOf);
    forall u | u in ts ensures KeyOf(u) in byKey && byKey[KeyOf(u)] == u {
      var i :| 0 <= i < |ts| && ts[i] == u;
      KeyedDiff.IndexFinds(ts, KeyOf, i);
    }
    assert forall r :: ReferenceFound(r, byKey) <==> forall u :: u in ts ==> ReferenceOk(r, u);
    assert forall x :: ForeignKeyFound(x, byKey) <==> forall u :: u in ts ==> ForeignKeyOk(x, u);
  }

  ghost predicate OwnTablesOk(ts: seq<Table>) {
    (forall t :: t in ts ==> TableOk(t)) && KeyedDiff.DistinctKeys(ts, KeyOf)
  }

  /** The first loop of `validateSchemaSnapshot`. */
  method ValidateTables(ts: seq<Table>) returns (issues: seq<Issue>, byKey: map<string, Table>)
    ensures issues == [] <==> OwnTablesOk(ts)
    ensures issues == [] ==> byKey == KeyedDiff.Index(ts, KeyOf)
  {
    issues, byKey := [], map[];
    for i := 0 to |ts|
      invariant issues == [] <==> OwnTablesOk(ts[..i])
      invariant issues == [] ==> byKey == KeyedDiff.Index(ts[..i], KeyOf)
    {
      var t := ts[i];
      assert ts[..i + 1] == ts[..i] + [t];
      assert ts[..i + 1][..i] == ts[..i];
      DistinctSnoc(ts[..i], t, KeyOf);
      KeyedDiff.HasKeyOf(ts[..i], KeyOf, KeyOf(t));
      assert OwnTablesOk(ts[..i + 1])
        <==> OwnTablesOk(ts[..i]) && TableOk(t) && !KeyedDiff.HasKey(ts[..i], KeyOf, KeyOf(t));
      if !NonEmpty(t.name) {
        issues := issues + [InvalidTable];
      } else {
        if KeyOf(t) in byKey {
          issues := issues + [DuplicateTable];
        }
        byKey := byKey[KeyOf(t) := t];
        var more := ValidateTable(t);
        issues := issues + more;
      }
    }
    assert ts[..|ts|] == ts;
  }

  /** `validateSchemaSnapshot`: there is no issue exactly when the snapshot is valid. */
  method ValidateSnapshot(s: Snapshot) returns (issues: seq<Issue>)
    ensures issues == [] <==> Valid(s)
  {
    issues := [];
    if s.version != 1 {
      issues := issues + [InvalidVersion];
    }
    if s.dialect.Some? && s.dialect.value !in ["generic", "postgres", "sqlite", "mysql"] {
      issues := issues + [InvalidDialect];
    }
    var tableIssues, byKey := ValidateTables(s.tables);
    var targetIssues: seq<Issue> := [];
    for i := 0 to |s.tables|
      invariant targetIssues == [] <==> forall t :: t in s.tables[..i] ==> TargetsFound(t, byKey)
    {
      assert s.tables[..i + 1] == s.tables[..i] + [s.tables[i]];
      var more := ValidateTargets(s.tables[i], byKey);
      targetIssues := targetIssues + more;
    }
    assert s.tables[..|s.tables|] == s.tables;
    issues := issues + tableIssues + targetIssues;
    if tableIssues == [] {
      forall t | t in s.tables ensures TargetsFound(t, byKey) <==> forall u :: u in s.tables ==> TargetsOk(t, u) {
        FoundIsOk(s.tables, t);
      }
    }
  }

  // ----- The difference of two snapshots ---------------------------------------------------------------

  /** The values of a JavaScript Map: a key keeps its first place and its last value. */
  function Entries(ts: seq<Table>): seq<Table> {
    if ts == [] then [] else PutTable(Entries(ts[..|ts| - 1]), ts[|ts| - 1])
  }

  function PutTable(ts: seq<Table>, t: Table): seq<Table> {
    if ts == [] then [t]
    else if KeyOf(ts[0]) == KeyOf(t) then [t] + ts[1..]
    else [ts[0]] + PutTable(ts[1..], t)
  }

  lemma {:induction false} PutNew(ts: seq<Table>, t: Table)
    requires forall u :: u in ts ==> KeyOf(u) != KeyOf(t)
    ensures PutTable(ts, t) == ts + [t]
  {
    if ts != [] {
      assert ts == [ts[0]] + ts[1..];
      PutNew(ts[1..], t);
    }
  }

  lemma {:induction false} PutKnown(ts: seq<Table>, i: nat, t: Table)
    requires i < |ts| && KeyOf(ts[i]) == KeyOf(t) && forall j :: 0 <= j < i ==> KeyOf(ts[j]) != KeyOf(t)
    ensures PutTable(ts, t) == ts[i := t]
  {
    if i > 0 {
      PutKnown(ts[1..], i - 1, t);
    }
  }

  lemma {:induction false} EntriesOfDistinct(ts: seq<Table>)
    requires KeyedDiff.DistinctKeys(ts, KeyOf)
    ensures Entries(ts) == ts
  {
    if ts != [] {
      var before, last := ts[..|ts| - 1], ts[|ts| - 1];
      EntriesOfDistinct(before);
      assert ts == before + [last];
      DistinctSnoc(before, last, KeyOf);
      PutNew(before, last);
    }
  }

  datatype TableDiff = TableDiff(from: Table, to: Table, columns: KeyedDiff.Delta<Column>)

  datatype SnapshotDiff = SnapshotDiff(addedTables: seq<Table>, removedTables: seq<Table>, changedTables: seq<TableDiff>)

  function WithColumns(changed: seq<(Table, Table)>): (r: seq<TableDiff>)
    ensures |r| == |changed|
    ensures forall i :: 0 <= i < |r| ==>
      r[i] == TableDiff(changed[i].0, changed[i].1, KeyedDiff.Diff(changed[i].0.columns, changed[i].1.columns, ColumnName))
  {
    if changed == [] then []
    else
      var (from, to) := changed[0];
      [TableDiff(from, to, KeyedDiff.Diff(from.columns, to.columns, ColumnName))] + WithColumns(changed[1..])
  }

  function DiffSnapshots(from: Snapshot, to: Snapshot, leq: StringOrder): SnapshotDiff {
    var delta := KeyedDiff.Diff(Entries(Normalize(from, leq).tables), Entries(Normalize(to, leq).tables), KeyOf);
    SnapshotDiff(delta.added, delta.removed, WithColumns(delta.changed))
  }

  /** For valid snapshots the tables are compared as they stand in the canonical forms. */
  lemma DiffOfValid(from: Snapshot, to: Snapshot, leq: StringOrder)
    requires Valid(from) && Valid(to)
    ensures var a, b := Normalize(from, leq).tables, Normalize(to, leq).tables;
      var delta := KeyedDiff.Diff(a, b, KeyOf);
      && TablesOk(a) && TablesOk(b)
      && DiffSnapshots(from, to, leq) == SnapshotDiff(delta.added, delta.removed, WithColumns(delta.changed))
  {
    NormalizeKeepsValidity(from, leq);
    NormalizeKeepsValidity(to, leq);
    EntriesOfDistinct(Normalize(from, leq).tables);
    EntriesOfDistinct(Normalize(to, leq).tables);
  }

  lemma {:induction false} SameIndexSameItems(a: seq<Table>, b: seq<Table>)
    requires KeyedDiff.DistinctKeys(a, KeyOf) && KeyedDiff.DistinctKeys(b, KeyOf)
    requires KeyedDiff.Index(a, KeyOf) == KeyedDiff.Index(b, KeyOf)
    ensures multiset(a) == multiset(b)
  {
    forall t ensures multiset(a)[t] == multiset(b)[t] {
      TimesInDistinct(a, t);
      TimesInDistinct(b, t);
    }
  }

  lemma {:induction false} TimesInDistinct(ts: seq<Table>, t: Table)
    requires KeyedDiff.DistinctKeys(ts, KeyOf)
    ensures var byKey := KeyedDiff.Index(ts, KeyOf);
      multiset(ts)[t] == if KeyOf(t) in byKey && byKey[KeyOf(t)] == t then 1 else 0
  {
    var byKey := KeyedDiff.Index(ts, KeyOf);
    if t in ts {
      var i :| 0 <= i < |ts| && ts[i] == t;
      KeyedDiff.IndexFinds(ts, KeyOf, i);
      DistinctIsApart(ts);
      Sorting.OnlyOnce(ts, i, (a: Table, b: Table) => KeyOf(a) == KeyOf(b));
    }
  }

  /**
   Two valid snapshots have no difference exactly when their canonical tables are equal, provided
   no two keys tie in the order of strings.
   */
  lemma NoDifferenceIffEqual(from: Snapshot, to: Snapshot, leq: StringOrder)
    requires Sorting.TotalPreorder(leq) && Valid(from) && Valid(to)
    requires Sorting.TiesAreEqual(Normalize(from, leq).tables, TableLeq(leq))
    ensures DiffSnapshots(from, to, leq) == SnapshotDiff([], [], [])
       <==> Normalize(from, leq).tables == Normalize(to, leq).tables
  {
    var a, b := Normalize(from, leq).tables, Normalize(to, leq).tables;
    DiffOfValid(from, to, leq);
    KeyedDiff.DiffEmptyIff(a, b, KeyOf);
    if KeyedDiff.Index(a, KeyOf) == KeyedDiff.Index(b, KeyOf) {
      SameIndexSameTables(from, to, leq);
    }
  }

  lemma {:induction false} SameIndexSameTables(from: Snapshot, to: Snapshot, leq: StringOrder)
    requires Sorting.TotalPreorder(leq)
    requires Sorting.TiesAreEqual(Normalize(from, leq).tables, TableLeq(leq))
    requires var a, b := Normalize(from, leq).tables, Normalize(to, leq).tables;
      && KeyedDiff.DistinctKeys(a, KeyOf) && KeyedDiff.DistinctKeys(b, KeyOf)
      && KeyedDiff.Index(a, KeyOf) == KeyedDiff.Index(b, KeyOf)
    ensures Normalize(from, leq).tables == Normalize(to, leq).tables
  {
    var a, b := Normalize(from, leq).tables, Normalize(to, leq).tables;
    OrdersLift(leq);
    SameIndexSameItems(a, b);
    Sorting.SortSorts(NormalizeTables(from.tables, leq), TableLeq(leq));
    Sorting.SortSorts(NormalizeTables(to.tables, leq), TableLeq(leq));
    Sorting.SortedUnique(a, b, TableLeq(leq));
  }

  /** The difference of valid snapshots rebuilds the table map of `to` from that of `from`. */
  lemma TablesAreRebuilt(from: Snapshot, to: Snapshot, leq: StringOrder)
    requires Valid(from) && Valid(to)
    ensures var a, b := Normalize(from, leq).tables, Normalize(to, leq).tables;
      var delta, diff := KeyedDiff.Diff(a, b, KeyOf), DiffSnapshots(from, to, leq);
      && diff == SnapshotDiff(delta.added, delta.removed, WithColumns(delta.changed))
      && KeyedDiff.Patch(KeyedDiff.Index(a, KeyOf), delta, KeyOf) == KeyedDiff.Index(b, KeyOf)
  {
    DiffOfValid(from, to, leq);
    KeyedDiff.DiffRebuilds(Normalize(from, leq).tables, Normalize(to, leq).tables, KeyOf);
  }

  /**
   In each changed table, the two versions are those of `from` and `to` under one key, and the
   column difference rebuilds the new version's column map from the old one's.
   */
  lemma ColumnsAreRebuilt(from: Snapshot, to: Snapshot, leq: StringOrder, i: nat)
    requires Valid(from) && Valid(to) && i < |DiffSnapshots(from, to, leq).changedTables|
    ensures var c := DiffSnapshots(from, to, leq).changedTables[i];
      && c.from in Normalize(from, leq).tables && c.to in Normalize(to, leq).tables
      && KeyOf(c.from) == KeyOf(c.to) && c.from != c.to
      && TableOk(c.from) && TableOk(c.to)
      && c.columns == KeyedDiff.Diff(c.from.columns, c.to.columns, ColumnName)
      && KeyedDiff.Patch(KeyedDiff.Index(c.from.columns, ColumnName), c.columns, ColumnName)
           == KeyedDiff.Index(c.to.columns, ColumnName)
  {
    var a, b := Normalize(from, leq).tables, Normalize(to, leq).tables;
    DiffOfValid(from, to, leq);
    var (x, y) := KeyedDiff.Diff(a, b, KeyOf).changed[i];
    KeyedDiff.ChangedIs(a, KeyedDiff.Index(b, KeyOf), KeyOf, x, y);
    KeyedDiff.DiffRebuilds(x.columns, y.columns, ColumnName);
  }
}
