/**
 The table rebuilds of migrations 12, 16, 19 and 21: widening a CHECK without
 losing a row, and the two orderings that would lose some.
 */
module TableRebuild {
  import opened Wrappers
  import opened Relational

  // ---------------------------------------------------------------------- recipe

  /**
   A parent table, its one child, and the temporary names of a rebuild: the new
   parent before it takes the name, and the set-aside copy of the child's rows.
   */
  datatype Pair = Pair(parent: string, child: string, incoming: string, aside: string, key: string, childSchema: Schema)

  /** The items are set aside where no foreign key reaches them, and the new parent is filled. */
  function Detach(p: Pair, schema: Schema): seq<Statement> {
    [CreateTableAs(p.aside, p.child), CreateTable(p.incoming, schema),
        InsertSelect(p.incoming, schema.columns, p.parent)]
  }

  /** Child before parent, then the new parent takes the name. */
  function Swap(p: Pair): seq<Statement> {
    [DropTable(p.child), DropTable(p.parent), RenameTable(p.incoming, p.parent)]
  }

  function Reattach(p: Pair): seq<Statement> {
    [CreateTable(p.child, p.childSchema), InsertSelect(p.child, p.childSchema.columns, p.aside), DropTable(p.aside)]
  }

  function Rebuild(p: Pair, schema: Schema): seq<Statement> {
    Detach(p, schema) + (Swap(p) + Reattach(p))
  }

  // ---------------------------------------------------------------------- states

  predicate Distinct(p: Pair) {
    && p.parent != p.child && p.parent != p.incoming && p.parent != p.aside
    && p.child != p.incoming && p.child != p.aside && p.incoming != p.aside
  }

  /** The child's key is the only one to either table; the parent has none; the temporary names are unused. */
  predicate OnlyChild(store: Store, p: Pair) {
    forall t :: t in store && store[t].schema.foreignKey.Some? ==>
      var target := store[t].schema.foreignKey.value.table;
      && target != p.child && target != p.incoming && target != p.aside
      && (target == p.parent ==> t == p.child)
  }

  predicate Present(store: Store, p: Pair) {
    && Distinct(p) && OnlyChild(store, p)
    && p.parent in store && p.child in store && p.incoming !in store && p.aside !in store
    && store[p.parent].schema.foreignKey == None
    && store[p.child].schema == p.childSchema
    && p.childSchema.foreignKey == Some(ForeignKey(p.key, p.parent))
  }

  /** Every row of the child meets its constraints, its key naming a row of the table given. */
  predicate ChildRowsHold(store: Store, p: Pair, parent: string, rows: map<string, Row>) {
    && parent in store
    && forall id :: id in rows ==>
        RowFits(rows[id], p.childSchema) && Resolves(store, rows[id], ForeignKey(p.key, parent))
  }

  predicate RowsMeet(rows: map<string, Row>, schema: Schema) {
    forall id :: id in rows ==> RowFits(rows[id], schema)
  }

  /** The database with the parent under the new definition, every row as it was. */
  function Widened(store: Store, p: Pair, schema: Schema): Store
    requires p.parent in store
  {
    store[p.parent := Table(schema, store[p.parent].rows)]
  }

  function SetAside(store: Store, p: Pair): Store
    requires p.child in store
  {
    store[p.aside := Table(Schema(store[p.child].schema.columns, {}, map[], None), store[p.child].rows)]
  }

  function Detached(store: Store, p: Pair, schema: Schema): Store
    requires Present(store, p)
  {
    SetAside(store, p)[p.incoming := Table(schema, store[p.parent].rows)]
  }

  function Swapped(store: Store, p: Pair, schema: Schema): Store
    requires Present(store, p)
  {
    (SetAside(store, p) - {p.child})[p.parent := Table(schema, store[p.parent].rows)]
  }

  // ------------------------------------------------------------------- the stages

  lemma FillFresh(store: Store, p: Pair, schema: Schema)
    requires p.parent in store && p.incoming != p.parent && schema.foreignKey == None
    requires store[p.parent].schema.columns == schema.columns && RowsMeet(store[p.parent].rows, schema)
    ensures Insert(store[p.incoming := Table(schema, map[])], p.incoming, schema.columns, p.parent)
         == Ok(store[p.incoming := Table(schema, store[p.parent].rows)])
  {
    InsertCopies(store[p.incoming := Table(schema, map[])], p.incoming, schema.columns, p.parent);
    assert store[p.incoming := Table(schema, map[])][p.incoming := Table(schema, store[p.parent].rows)]
        == store[p.incoming := Table(schema, store[p.parent].rows)];
  }

  lemma DetachStage(store: Store, p: Pair, schema: Schema)
    requires Present(store, p) && schema.foreignKey == None
    requires store[p.parent].schema.columns == schema.columns && RowsMeet(store[p.parent].rows, schema)
    ensures ExecuteAll(store, Detach(p, schema)) == Ok(Detached(store, p, schema))
  {
    var s1 := SetAside(store, p);
    FillFresh(s1, p, schema);
    RunsThree(store, s1, s1[p.incoming := Table(schema, map[])],
              CreateTableAs(p.aside, p.child), CreateTable(p.incoming, schema),
                  InsertSelect(p.incoming, schema.columns, p.parent));
  }

  lemma SwapStage(store: Store, p: Pair, schema: Schema)
    requires Present(store, p) && schema.foreignKey == None
    ensures ExecuteAll(Detached(store, p, schema), Swap(p)) == Ok(Swapped(store, p, schema))
  {
    hide Drop, Rename;
    var d := Detached(store, p, schema);
    assert Unreferenced(d, p.child);
    DropUnreferenced(d, p.child);
    var e := d - {p.child};
    assert Unreferenced(e, p.parent);
    DropUnreferenced(e, p.parent);
    var f := e - {p.parent};
    assert Unreferenced(f, p.incoming);
    RenameUnreferenced(f, p.incoming, p.parent);
    assert (f - {p.incoming})[p.parent := f[p.incoming]] == Swapped(store, p, schema);
    RunsThree(d, e, f, DropTable(p.child), DropTable(p.parent), RenameTable(p.incoming, p.parent));
  }

  lemma RefillChild(store: Store, p: Pair, rows: map<string, Row>)
    requires p.aside in store && p.aside != p.child && p.parent in store && p.parent != p.child
    requires store[p.aside].rows == rows && store[p.aside].schema.columns == p.childSchema.columns
    requires p.childSchema.foreignKey == Some(ForeignKey(p.key, p.parent))
    requires ChildRowsHold(store, p, p.parent, rows)
    ensures Insert(store[p.child := Table(p.childSchema, map[])], p.child, p.childSchema.columns, p.aside)
         == Ok(store[p.child := Table(p.childSchema, rows)])
  {
    var s := store[p.child := Table(p.childSchema, map[])];
    forall id | id in rows ensures RowAccepted(s, rows[id], p.childSchema) {
      assert Resolves(store, rows[id], ForeignKey(p.key, p.parent));
    }
    InsertCopies(s, p.child, p.childSchema.columns, p.aside);
    assert s[p.child := Table(p.childSchema, rows)] == store[p.child := Table(p.childSchema, rows)];
  }

  lemma ReattachStage(store: Store, p: Pair, schema: Schema)
    requires Present(store, p) && schema.foreignKey == None
    requires ChildRowsHold(store, p, p.parent, store[p.child].rows)
    ensures ExecuteAll(Swapped(store, p, schema), Reattach(p)) == Ok(Widened(store, p, schema))
  {
    var rows := store[p.child].rows;
    var s0 := Swapped(store, p, schema);
    assert ChildRowsHold(s0, p, p.parent, rows) by {
      forall id | id in rows ensures Resolves(s0, rows[id], ForeignKey(p.key, p.parent)) {
        assert Resolves(store, rows[id], ForeignKey(p.key, p.parent));
      }
    }
    RefillChild(s0, p, rows);
    var s2 := s0[p.child := Table(p.childSchema, rows)];
    assert Unreferenced(s2, p.aside);
    DropUnreferenced(s2, p.aside);
    assert s2 - {p.aside} == Widened(store, p, schema);
    RunsThree(s0, s0[p.child := Table(p.childSchema, map[])], s2,
              CreateTable(p.child, p.childSchema), InsertSelect(p.child, p.childSchema.columns, p.aside),
                  DropTable(p.aside));
  }

  /** A sound database in which the pair is as the recipe expects. */
  predicate Ready(store: Store, p: Pair) {
    Sound(store) && Present(store, p) && p.key in p.childSchema.notNull
  }

  lemma ReadyRowsHold(store: Store, p: Pair)
    requires Ready(store, p)
    ensures ChildRowsHold(store, p, p.parent, store[p.child].rows)
  {
    assert store[p.child].schema.foreignKey.Some?;
  }

  lemma WidenedIsReady(store: Store, p: Pair, schema: Schema)
    requires Ready(store, p) && schema.foreignKey == None && RowsMeet(store[p.parent].rows, schema)
    ensures Ready(Widened(store, p, schema), p)
  {
    var after := Widened(store, p, schema);
    forall t | t in after && after[t].schema.foreignKey.Some?
      ensures after[t].schema.foreignKey.value.table in after
      ensures forall id :: id in after[t].rows ==> Resolves(after, after[t].rows[id], after[t].schema.foreignKey.value)
    {
      assert store[t].schema.foreignKey.Some?;
    }
  }

  /**
   The rebuild leaves a database that differs only in the parent's definition:
   every row of parent and child as it was, every other table untouched, and
   every foreign key resolving by name.
   */
  lemma RebuildKeepsEveryRow(store: Store, p: Pair, schema: Schema)
    requires Ready(store, p) && schema.foreignKey == None
    requires store[p.parent].schema.columns == schema.columns && RowsMeet(store[p.parent].rows, schema)
    ensures ExecuteAll(store, Rebuild(p, schema)) == Ok(Widened(store, p, schema))
    ensures Sound(Widened(store, p, schema))
  {
    ReadyRowsHold(store, p);
    DetachStage(store, p, schema);
    SwapStage(store, p, schema);
    ReattachStage(store, p, schema);
    RunsInTurn(store, Detach(p, schema), Swap(p) + Reattach(p));
    RunsInTurn(Detached(store, p, schema), Swap(p), Reattach(p));
    WidenedIsReady(store, p, schema);
  }

  lemma MisfitsNotInserted(store: Store, p: Pair, schema: Schema)
    requires p.parent in store && p.incoming != p.parent && schema.foreignKey == None
    requires store[p.parent].schema.columns == schema.columns && !RowsMeet(store[p.parent].rows, schema)
    requires RowsMeet(store[p.parent].rows, store[p.parent].schema)
    ensures Insert(store[p.incoming := Table(schema, map[])], p.incoming, schema.columns, p.parent)
        == Err(ConstraintFailed)
  {
    var s := store[p.incoming := Table(schema, map[])];
    SelectedCopies(s[p.parent], schema.columns, schema);
    var added := Selected(s[p.parent], schema.columns, schema);
    var id :| id in added && !RowFits(added[id], schema);
    assert !RowAccepted(s, added[id], schema);
  }

  /** A row outside the new lists stops the migration, which then changes nothing. */
  lemma RebuildRefusesMisfits(store: Store, p: Pair, schema: Schema)
    requires Ready(store, p) && schema.foreignKey == None
    requires store[p.parent].schema.columns == schema.columns && !RowsMeet(store[p.parent].rows, schema)
    ensures ExecuteAll(store, Rebuild(p, schema)) == Err(ConstraintFailed)
  {
    var s1 := SetAside(store, p);
    MisfitsNotInserted(s1, p, schema);
    RunsThree(store, s1, s1[p.incoming := Table(schema, map[])],
              CreateTableAs(p.aside, p.child), CreateTable(p.incoming, schema),
                  InsertSelect(p.incoming, schema.columns, p.parent));
    RunsInTurn(store, Detach(p, schema), Swap(p) + Reattach(p));
  }

  // ---------------------------------------------------------------- a table alone

  /** Migration 21's recipe, for a table no foreign key refers to. */
  function RebuildAlone(name: string, incoming: string, schema: Schema): seq<Statement> {
    [CreateTable(incoming, schema), InsertSelect(incoming, schema.columns, name), DropTable(name)]
        + [RenameTable(incoming, name)]
  }

  lemma TakesNameAlone(store: Store, name: string, incoming: string, schema: Schema)
    requires name in store && incoming !in store && Unreferenced(store, name) && Unreferenced(store, incoming)
    requires schema.foreignKey == None && store[name].schema.foreignKey == None
    ensures var s := store[incoming := Table(schema, store[name].rows)];
            && Drop(s, name) == Ok(s - {name})
            && Rename(s - {name}, incoming, name) == Ok(store[name := Table(schema, store[name].rows)])
  {
    var s := store[incoming := Table(schema, store[name].rows)];
    DropUnreferenced(s, name);
    RenameUnreferenced(s - {name}, incoming, name);
    assert (s - {name} - {incoming})[name := s[incoming]] == store[name := Table(schema, store[name].rows)];
  }

  lemma RebuildAloneKeepsRows(store: Store, name: string, incoming: string, schema: Schema)
    requires name in store && incoming !in store && Unreferenced(store, name) && Unreferenced(store, incoming)
    requires store[name].schema.columns == schema.columns && schema.foreignKey == None
    requires store[name].schema.foreignKey == None && RowsMeet(store[name].rows, schema)
    ensures ExecuteAll(store, RebuildAlone(name, incoming, schema))
        == Ok(store[name := Table(schema, store[name].rows)])
  {
    var s1, s2 := store[incoming := Table(schema, map[])], store[incoming := Table(schema, store[name].rows)];
    InsertCopies(s1, incoming, schema.columns, name);
    assert s1[incoming := Table(schema, store[name].rows)] == s2;
    TakesNameAlone(store, name, incoming, schema);
    RunsThree(store, s1, s2, CreateTable(incoming, schema), InsertSelect(incoming, schema.columns, name),
              DropTable(name));
    RunsOne(s2 - {name}, RenameTable(incoming, name));
    RunsInTurn(store, [CreateTable(incoming, schema), InsertSelect(incoming, schema.columns, name), DropTable(name)],
               [RenameTable(incoming, name)]);
  }

  /** A table alone under another definition that its rows meet leaves the database sound. */
  lemma WidenedAloneIsSound(store: Store, name: string, schema: Schema)
    requires Sound(store) && name in store && Unreferenced(store, name)
    requires schema.foreignKey == None && RowsMeet(store[name].rows, schema)
    ensures Sound(store[name := Table(schema, store[name].rows)])
  {
    var after := store[name := Table(schema, store[name].rows)];
    forall t | t in after && after[t].schema.foreignKey.Some?
      ensures after[t].schema.foreignKey.value.table in after
      ensures forall id :: id in after[t].rows ==> Resolves(after, after[t].rows[id], after[t].schema.foreignKey.value)
    {
      assert store[t].schema.foreignKey.value.table in store;
      assert forall id :: id in store[t].rows ==> Resolves(store, store[t].rows[id], store[t].schema.foreignKey.value);
    }
  }

  // --------------------------------------------------------------- the two hazards

  /** Dropping the table the child's key names empties the child and leaves the rest. */
  lemma DropTakesChildRows(store: Store, child: string, key: string, parent: string)
    requires parent in store && child in store && parent != child
    requires store[child].schema.foreignKey == Some(ForeignKey(key, parent))
    requires Unreferenced(store, child)
    requires forall t :: t in store && t != child && store[t].schema.foreignKey.Some? ==>
               store[t].schema.foreignKey.value.table != parent
    requires forall id :: id in store[child].rows ==>
               Resolves(store, store[child].rows[id], ForeignKey(key, parent)) && store[child].rows[id][key] != Null
    ensures Drop(store, parent) == Ok((store - {parent})[child := Table(store[child].schema, map[])])
  {
    hide Cascade;
    var own, all := RowsOf(store, parent), RowsOf(store, parent) + RowsOf(store, child);
    CascadeIsLeast(store, own, all);
    var gone := Cascade(store, own);
    forall id | id in store[child].rows ensures (child, id) in gone {
      assert (parent, store[child].rows[id][key].text) in own;
      assert DependsOn(store, (child, id), gone);
    }
    forall t | t in store && t != parent && t != child ensures Without(store[t], t, gone) == store[t] {
      assert (map id | id in store[t].rows && (t, id) !in gone :: store[t].rows[id]) == store[t].rows;
    }
    assert Without(store[child], child, gone).rows == map[];
    assert (map t | t in store && t != parent :: Without(store[t], t, gone))
        == (store - {parent})[child := Table(store[child].schema, map[])];
  }

  /** Renaming the parent out of its name, as migration 9 does with a table that has no child. */
  function RenameOut(p: Pair, former: string, schema: Schema): seq<Statement> {
    [RenameTable(p.parent, former), CreateTable(p.parent, schema), InsertSelect(p.parent, schema.columns, former)]
    + [DropTable(former)]
  }

  /** The child's definition after its key followed the parent to another name. */
  function Following(p: Pair, parent: string): Schema {
    p.childSchema.(foreignKey := Some(ForeignKey(p.key, parent)))
  }

  /** The parent under another name, the child's key following it there. */
  function RenamedOut(store: Store, p: Pair, former: string): Store
    requires Present(store, p)
  {
    (store - {p.parent})[former := store[p.parent]][p.child := Table(Following(p, former), store[p.child].rows)]
  }

  lemma RenameRedirectsChild(store: Store, p: Pair, former: string)
    requires Present(store, p) && former !in store
    ensures Rename(store, p.parent, former) == Ok(RenamedOut(store, p, former))
  {
    forall t | t in store && t != p.child ensures Redirected(store[t], p.parent, former) == store[t] {
    }
    assert Redirected(store[p.child], p.parent, former) == Table(Following(p, former), store[p.child].rows);
    assert (map t | t in store && t != p.parent :: Redirected(store[t], p.parent, former))[former := store[p.parent]]
        == RenamedOut(store, p, former);
  }

  /** The database a hazard leaves: the parent rebuilt, the child emptied. */
  function Emptied(store: Store, p: Pair, schema: Schema, childSchema: Schema): Store
    requires p.parent in store
  {
    Widened(store, p, schema)[p.child := Table(childSchema, map[])]
  }

  lemma RenameOutRefills(store: Store, p: Pair, former: string, schema: Schema)
    requires Present(store, p) && former !in store && schema.foreignKey == None
    requires store[p.parent].schema.columns == schema.columns && RowsMeet(store[p.parent].rows, schema)
    ensures ExecuteAll(store,
        [RenameTable(p.parent, former), CreateTable(p.parent, schema), InsertSelect(p.parent, schema.columns, former)])
         == Ok(RenamedOut(store, p, former)[p.parent := Table(schema, store[p.parent].rows)])
  {
    var s1 := RenamedOut(store, p, former);
    RenameRedirectsChild(store, p, former);
    var s2 := s1[p.parent := Table(schema, map[])];
    assert s2[former] == store[p.parent];
    InsertCopies(s2, p.parent, schema.columns, former);
    assert s2[p.parent := Table(schema, store[p.parent].rows)] == s1[p.parent := Table(schema, store[p.parent].rows)];
    RunsThree(store, s1, s2, RenameTable(p.parent, former), CreateTable(p.parent, schema),
              InsertSelect(p.parent, schema.columns, former));
  }

  lemma OldParentTakesChildRows(store: Store, p: Pair, former: string, schema: Schema)
    requires Ready(store, p) && former !in store && schema.foreignKey == None
    ensures Drop(RenamedOut(store, p, former)[p.parent := Table(schema, store[p.parent].rows)], former)
         == Ok(Emptied(store, p, schema, Following(p, former)))
  {
    hide Drop;
    var s := RenamedOut(store, p, former)[p.parent := Table(schema, store[p.parent].rows)];
    ReadyRowsHold(store, p);
    forall id | id in s[p.child].rows
      ensures Resolves(s, s[p.child].rows[id], ForeignKey(p.key, former)) && s[p.child].rows[id][p.key] != Null
    {
      assert RowFits(store[p.child].rows[id], p.childSchema);
      assert Resolves(store, store[p.child].rows[id], ForeignKey(p.key, p.parent));
    }
    forall t | t in s && t != p.child && s[t].schema.foreignKey.Some?
      ensures s[t].schema.foreignKey.value.table != former {
      assert store[t].schema.foreignKey.value.table in store;
    }
    assert Unreferenced(s, p.child);
    DropTakesChildRows(s, p.child, p.key, former);
    assert (s - {former})[p.child := Table(Following(p, former), map[])]
        == Emptied(store, p, schema, Following(p, former));
  }

  /** The old parent is dropped last, and its rows take every row of the child with them. */
  lemma RenameOutLosesChild(store: Store, p: Pair, former: string, schema: Schema)
    requires Ready(store, p) && former !in store && schema.foreignKey == None
    requires store[p.parent].schema.columns == schema.columns && RowsMeet(store[p.parent].rows, schema)
    ensures ExecuteAll(store, RenameOut(p, former, schema)) == Ok(Emptied(store, p, schema, Following(p, former)))
  {
    var first := [RenameTable(p.parent, former), CreateTable(p.parent, schema),
        InsertSelect(p.parent, schema.columns, former)];
    RenameOutRefills(store, p, former, schema);
    OldParentTakesChildRows(store, p, former, schema);
    RunsInTurn(store, first, [DropTable(former)]);
    RunsOne(RenamedOut(store, p, former)[p.parent := Table(schema, store[p.parent].rows)], DropTable(former));
  }

  /** From then on the child's key names no table, and every insert into the child fails on that name. */
  lemma RenameOutDangles(store: Store, p: Pair, former: string, schema: Schema, source: string)
    requires Ready(store, p) && former !in store
    requires source in store && source != p.parent && p.childSchema.columns <= store[source].schema.columns
    ensures !KeysResolve(Emptied(store, p, schema, Following(p, former)))
    ensures Execute(Emptied(store, p, schema, Following(p, former)),
                    InsertSelect(p.child, p.childSchema.columns, source))
         == Err(NoSuchTable(former))
  {
    var after := Emptied(store, p, schema, Following(p, former));
    assert p.child in after && after[p.child].schema.foreignKey == Some(ForeignKey(p.key, former));
  }

  /** The safe names, but the parent dropped while the child is alive. */
  function DropUnderChild(p: Pair, schema: Schema): seq<Statement> {
    [CreateTable(p.incoming, schema), InsertSelect(p.incoming, schema.columns, p.parent), DropTable(p.parent)]
    + [RenameTable(p.incoming, p.parent)]
  }

  /** The new parent under its temporary name; the old one gone, and the child's rows with it. */
  function ParentTaken(store: Store, p: Pair, schema: Schema): Store
    requires p.parent in store
  {
    (store - {p.parent})[p.incoming := Table(schema, store[p.parent].rows)][p.child := Table(p.childSchema, map[])]
  }

  lemma ParentTakesChildRows(store: Store, p: Pair, schema: Schema)
    requires Ready(store, p) && schema.foreignKey == None
    ensures Drop(store[p.incoming := Table(schema, store[p.parent].rows)], p.parent)
         == Ok(ParentTaken(store, p, schema))
  {
    var s := store[p.incoming := Table(schema, store[p.parent].rows)];
    ReadyRowsHold(store, p);
    forall id | id in s[p.child].rows
      ensures Resolves(s, s[p.child].rows[id], ForeignKey(p.key, p.parent)) && s[p.child].rows[id][p.key] != Null
    {
      assert RowFits(store[p.child].rows[id], p.childSchema);
      assert Resolves(store, store[p.child].rows[id], ForeignKey(p.key, p.parent));
    }
    assert Unreferenced(s, p.child);
    DropTakesChildRows(s, p.child, p.key, p.parent);
    assert (s - {p.parent})[p.child := Table(p.childSchema, map[])]
        == ParentTaken(store, p, schema);
  }

  /** Every row of the child is lost although the names are right and every key resolves. */
  lemma DropUnderChildLosesChild(store: Store, p: Pair, schema: Schema)
    requires Ready(store, p) && schema.foreignKey == None
    requires store[p.parent].schema.columns == schema.columns && RowsMeet(store[p.parent].rows, schema)
    ensures ExecuteAll(store, DropUnderChild(p, schema)) == Ok(Emptied(store, p, schema, p.childSchema))
  {
    var s1, s2 := store[p.incoming := Table(schema, map[])], store[p.incoming := Table(schema, store[p.parent].rows)];
    FillFresh(store, p, schema);
    ParentTakesChildRows(store, p, schema);
    var s3 := ParentTaken(store, p, schema);
    RunsThree(store, s1, s2, CreateTable(p.incoming, schema), InsertSelect(p.incoming, schema.columns, p.parent),
              DropTable(p.parent));
    var first := DropUnderChild(p, schema)[..3];
    assert first == [CreateTable(p.incoming, schema), InsertSelect(p.incoming, schema.columns, p.parent),
                     DropTable(p.parent)];
    RunsInTurn(store, first, [RenameTable(p.incoming, p.parent)]);
    RunsOne(s3, RenameTable(p.incoming, p.parent));
    TakesTheName(store, p, schema);
  }

  lemma TakesTheName(store: Store, p: Pair, schema: Schema)
    requires Present(store, p) && schema.foreignKey == None
    ensures var s := ParentTaken(store, p, schema);
            Rename(s, p.incoming, p.parent) == Ok(Emptied(store, p, schema, p.childSchema))
  {
    hide Rename;
    var s := ParentTaken(store, p, schema);
    assert Unreferenced(s, p.incoming);
    RenameUnreferenced(s, p.incoming, p.parent);
    assert (s - {p.incoming})[p.parent := s[p.incoming]] == Emptied(store, p, schema, p.childSchema);
  }
}
