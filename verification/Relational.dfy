/**
 A small relational store with the SQLite statements a table rebuild uses, run
 with foreign-key enforcement on and inside one transaction.
 */
module Relational {
  import opened Wrappers

  /** Numbers and times are carried as their text. */
  datatype Value = Null | Text(text: string)

  type Row = map<string, Value>

  /** FOREIGN KEY (column) REFERENCES table(id) ON DELETE CASCADE; the table is known by name only. */
  datatype ForeignKey = ForeignKey(column: string, table: string)

  datatype Schema = Schema(
    columns: set<string>,
    notNull: set<string>,
    checks: map<string, set<string>>,
    foreignKey: Option<ForeignKey>)

  /** Rows by primary key. */
  datatype Table = Table(schema: Schema, rows: map<string, Row>)

  type Store = map<string, Table>

  datatype Statement =
    | CreateTable(name: string, schema: Schema)
    | CreateTableAs(copy: string, source: string)
    | InsertSelect(into: string, columns: set<string>, from: string)
    | DropTable(name: string)
    | RenameTable(from: string, to: string)

  datatype Error =
    | TableExists(table: string)
    | NoSuchTable(table: string)
    | NoSuchColumn
    | ConstraintFailed

  // ----------------------------------------------------------------- constraints

  /** CHECK (column IN (...)) accepts NULL; NOT NULL is a constraint of its own. */
  predicate RowFits(row: Row, schema: Schema) {
    && row.Keys == schema.columns
    && (forall c :: c in schema.notNull ==> c in row && row[c] != Null)
    && (forall c :: c in schema.checks && c in row && row[c].Text? ==> row[c].text in schema.checks[c])
  }

  /** The row's foreign key is NULL or names an existing row. */
  predicate Resolves(store: Store, row: Row, fk: ForeignKey) {
    && fk.column in row
    && (row[fk.column].Text? ==> fk.table in store && row[fk.column].text in store[fk.table].rows)
  }

  /** Every foreign key names a table, and every row's key names a row of it. */
  predicate KeysResolve(store: Store) {
    forall t :: t in store && store[t].schema.foreignKey.Some? ==>
      var fk := store[t].schema.foreignKey.value;
      fk.table in store && forall id :: id in store[t].rows ==> Resolves(store, store[t].rows[id], fk)
  }

  predicate RowsFit(store: Store) {
    forall t, id :: t in store && id in store[t].rows ==> RowFits(store[t].rows[id], store[t].schema)
  }

  predicate Sound(store: Store) {
    RowsFit(store) && KeysResolve(store)
  }

  // -------------------------------------------------------------------- cascades

  type RowRef = (string, string)

  function AllRows(store: Store): set<RowRef> {
    set t, id | t in store && id in store[t].rows :: (t, id)
  }

  function RowsOf(store: Store, name: string): set<RowRef>
    requires name in store
  {
    set id | id in store[name].rows :: (name, id)
  }

  /** The row's foreign key names one of the parents. */
  predicate DependsOn(store: Store, r: RowRef, parents: set<RowRef>) {
    && r.0 in store && r.1 in store[r.0].rows
    && store[r.0].schema.foreignKey.Some?
    && var fk, row := store[r.0].schema.foreignKey.value, store[r.0].rows[r.1];
       fk.column in row && row[fk.column].Text? && (fk.table, row[fk.column].text) in parents
  }

  predicate ClosedUnderCascade(store: Store, gone: set<RowRef>) {
    forall r :: r in AllRows(store) && DependsOn(store, r, gone) ==> r in gone
  }

  /** What ON DELETE CASCADE removes along with the given rows. */
  function Cascade(store: Store, gone: set<RowRef>): (all: set<RowRef>)
    requires gone <= AllRows(store)
    ensures gone <= all <= AllRows(store) && ClosedUnderCascade(store, all)
    decreases AllRows(store) - gone
  {
    var more := set r | r in AllRows(store) && DependsOn(store, r, gone) :: r;
    if more <= gone then gone else Cascade(store, gone + more)
  }

  /** A cascade removes nothing that some closed set avoids. */
  lemma {:induction false} CascadeIsLeast(store: Store, gone: set<RowRef>, bound: set<RowRef>)
    requires gone <= AllRows(store) && gone <= bound && ClosedUnderCascade(store, bound)
    ensures Cascade(store, gone) <= bound
    decreases AllRows(store) - gone
  {
    var more := set r | r in AllRows(store) && DependsOn(store, r, gone) :: r;
    forall r | r in more ensures r in bound {
      assert DependsOn(store, r, bound);
    }
    if !(more <= gone) { CascadeIsLeast(store, gone + more, bound); }
  }

  // ------------------------------------------------------------------ statements

  function Projected(row: Row, columns: set<string>, schema: Schema): Row {
    map c | c in schema.columns :: if c in columns && c in row then row[c] else Null
  }

  function Selected(source: Table, columns: set<string>, schema: Schema): map<string, Row> {
    map id | id in source.rows :: Projected(source.rows[id], columns, schema)
  }

  predicate RowAccepted(store: Store, row: Row, schema: Schema) {
    RowFits(row, schema) && (schema.foreignKey.Some? ==> Resolves(store, row, schema.foreignKey.value))
  }

  function Insert(store: Store, into: string, columns: set<string>, from: string): Result<Store, Error> {
    if into !in store then Err(NoSuchTable(into))
    else if from !in store then Err(NoSuchTable(from))
    else
      var target, source := store[into], store[from];
      if !(columns <= target.schema.columns && columns <= source.schema.columns) then Err(NoSuchColumn)
      else if target.schema.foreignKey.Some? && target.schema.foreignKey.value.table !in store then
        Err(NoSuchTable(target.schema.foreignKey.value.table))
      else
        var added := Selected(source, columns, target.schema);
        if added.Keys !! target.rows.Keys && forall id :: id in added ==> RowAccepted(store, added[id], target.schema)
        then Ok(store[into := target.(rows := target.rows + added)])
        else Err(ConstraintFailed)
  }

  function Without(t: Table, name: string, gone: set<RowRef>): Table {
    t.(rows := map id | id in t.rows && (name, id) !in gone :: t.rows[id])
  }

  /** The implicit DELETE of DROP TABLE, cascading, and then the table itself. */
  function Drop(store: Store, name: string): Result<Store, Error> {
    if name !in store then Err(NoSuchTable(name))
    else
      var gone := Cascade(store, RowsOf(store, name));
      Ok(map t | t in store && t != name :: Without(store[t], t, gone))
  }

  /** ALTER TABLE RENAME also rewrites the name in every foreign key that referred to it. */
  function Redirected(t: Table, from: string, to: string): Table {
    match t.schema.foreignKey
    case None => t
    case Some(fk) =>
      if fk.table == from then t.(schema := t.schema.(foreignKey := Some(ForeignKey(fk.column, to)))) else t
  }

  function Rename(store: Store, from: string, to: string): Result<Store, Error> {
    if from !in store then Err(NoSuchTable(from))
    else if to in store then Err(TableExists(to))
    else
      var others := map t | t in store && t != from :: Redirected(store[t], from, to);
      Ok(others[to := Redirected(store[from], from, to)])
  }

  function Execute(store: Store, st: Statement): Result<Store, Error> {
    match st
    case CreateTable(name, schema) =>
      if name in store then Err(TableExists(name)) else Ok(store[name := Table(schema, map[])])
    case CreateTableAs(copy, source) =>
      if copy in store then Err(TableExists(copy))
      else if source !in store then Err(NoSuchTable(source))
      else Ok(store[copy := Table(Schema(store[source].schema.columns, {}, map[], None), store[source].rows)])
    case InsertSelect(into, columns, from) => Insert(store, into, columns, from)
    case DropTable(name) => Drop(store, name)
    case RenameTable(from, to) => Rename(store, from, to)
  }

  function ExecuteAll(store: Store, script: seq<Statement>): Result<Store, Error>
    decreases |script|
  {
    if script == [] then Ok(store)
    else
      match Execute(store, script[0])
      case Ok(next) => ExecuteAll(next, script[1..])
      case Err(e) => Err(e)
  }

  /** A name in use is refused, and so is a table that is not there. */
  lemma NamesAreChecked(store: Store, name: string, other: string, schema: Schema, columns: set<string>)
    ensures name in store ==>
      && Execute(store, CreateTable(name, schema)) == Err(TableExists(name))
      && Execute(store, CreateTableAs(name, other)) == Err(TableExists(name))
      && (other in store ==> Execute(store, RenameTable(other, name)) == Err(TableExists(name)))
    ensures name !in store ==>
      && Execute(store, DropTable(name)) == Err(NoSuchTable(name))
      && Execute(store, RenameTable(name, other)) == Err(NoSuchTable(name))
      && Execute(store, InsertSelect(name, columns, other)) == Err(NoSuchTable(name))
      && (other in store ==> Execute(store, InsertSelect(other, columns, name)) == Err(NoSuchTable(name)))
      && (other !in store ==> Execute(store, CreateTableAs(other, name)) == Err(NoSuchTable(name)))
  {
  }

  /** A script in two parts: the second runs where the first ended. */
  lemma {:induction false} RunsInTurn(store: Store, first: seq<Statement>, later: seq<Statement>)
    ensures ExecuteAll(store, first + later)
         == match ExecuteAll(store, first) case Ok(next) => ExecuteAll(next, later) case Err(e) => Err(e)
    decreases |first|
  {
    if first == [] {
      assert first + later == later;
    } else {
      assert (first + later)[1..] == first[1..] + later;
      if Execute(store, first[0]).Ok? { RunsInTurn(Execute(store, first[0]).value, first[1..], later); }
    }
  }

  lemma RunsOne(store: Store, st: Statement)
    ensures ExecuteAll(store, [st]) == Execute(store, st)
  {
    assert [st][1..] == [];
  }

  lemma RunsThree(s0: Store, s1: Store, s2: Store, a: Statement, b: Statement, c: Statement)
    requires Execute(s0, a) == Ok(s1) && Execute(s1, b) == Ok(s2)
    ensures ExecuteAll(s0, [a, b, c]) == Execute(s2, c)
  {
    RunsOne(s2, c);
    assert [a, b, c][1..] == [b, c] && [b, c][1..] == [c];
    assert ExecuteAll(s1, [b, c]) == ExecuteAll(s2, [c]);
  }

  class Database {
    var store: Store

    constructor (initial: Store)
      ensures store == initial
    {
      store := initial;
    }

    /** One migration's statements in one transaction: all of them, or none. */
    method Apply(script: seq<Statement>) returns (r: Result<(), Error>)
      modifies this
      ensures ExecuteAll(old(store), script).Ok? <==> r.Ok?
      ensures r.Ok? ==> store == ExecuteAll(old(store), script).value
      ensures r.Err? ==> store == old(store) && ExecuteAll(old(store), script) == Err(r.error)
    {
      var before := store;
      var i := 0;
      while i < |script|
        invariant 0 <= i <= |script|
        invariant ExecuteAll(old(store), script) == ExecuteAll(store, script[i..])
      {
        var next := Execute(store, script[i]);
        assert script[i..][1..] == script[i + 1..];
        match next {
          case Err(e) =>
            store := before;
            return Err(e);
          case Ok(s) =>
            store := s;
        }
        i := i + 1;
      }
      return Ok(());
    }
  }

  // ---------------------------------------------------------------------- frames

  /** No other table has a foreign key to it. */
  predicate Unreferenced(store: Store, name: string) {
    forall t :: t in store && t != name && store[t].schema.foreignKey.Some? ==>
        store[t].schema.foreignKey.value.table != name
  }

  /** Dropping a table nobody refers to removes that table and nothing else. */
  lemma DropUnreferenced(store: Store, name: string)
    requires name in store && Unreferenced(store, name)
    ensures Drop(store, name) == Ok(store - {name})
  {
    var own := RowsOf(store, name);
    CascadeIsLeast(store, own, own);
    var gone := Cascade(store, own);
    forall t | t in store && t != name ensures Without(store[t], t, gone) == store[t] {
      assert (map id | id in store[t].rows && (t, id) !in gone :: store[t].rows[id]) == store[t].rows;
    }
    assert (map t | t in store && t != name :: Without(store[t], t, gone)) == store - {name};
  }

  /** Selecting every column of rows that already have exactly those columns copies them. */
  lemma SelectedCopies(source: Table, columns: set<string>, schema: Schema)
    requires schema.columns == columns
    requires forall id :: id in source.rows ==> source.rows[id].Keys == columns
    ensures Selected(source, columns, schema) == source.rows
  {
    forall id | id in source.rows ensures Projected(source.rows[id], columns, schema) == source.rows[id] {
    }
  }

  /** Copying all rows into an empty table whose constraints they meet. */
  lemma InsertCopies(store: Store, into: string, columns: set<string>, from: string)
    requires into in store && from in store
    requires store[into].schema.columns == columns && store[into].rows == map[]
    requires store[from].schema.columns == columns
    requires store[into].schema.foreignKey.Some? ==> store[into].schema.foreignKey.value.table in store
    requires forall id :: id in store[from].rows ==> RowAccepted(store, store[from].rows[id], store[into].schema)
    ensures Insert(store, into, columns, from) == Ok(store[into := Table(store[into].schema, store[from].rows)])
  {
    SelectedCopies(store[from], columns, store[into].schema);
    assert map[] + store[from].rows == store[from].rows;
  }

  /** Renaming a table nobody refers to moves it and rewrites nothing. */
  lemma RenameUnreferenced(store: Store, from: string, to: string)
    requires from in store && to !in store && Unreferenced(store, from) && store[from].schema.foreignKey == None
    ensures Rename(store, from, to) == Ok((store - {from})[to := store[from]])
  {
    assert (map t | t in store && t != from :: Redirected(store[t], from, to)) == store - {from};
  }
}
