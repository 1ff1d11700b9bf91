/** One row a planner looks at and what it wants of it.  Every planner of the cascade is a
    list of these; what a list does when planned and applied is proved here once. */
module Cells {
  import opened Outcomes
  import opened MutationStore
  import opened MutationLaws
  import opened Undo
  import opened StateChanges
  import opened OperationLog

  /** `columns` is what the planner selects, `skip` the states it leaves alone. */
  datatype Cell = Cell(
    kind: Kind, resourceId: string, selector: seq<string>, columns: set<Column>,
    field: Column, value: string, changeKind: string, skip: set<string>, extra: Row)

  function KeyOfCell(c: Cell): Key {
    Key(c.kind, c.selector)
  }

  predicate Skipped(row: Row, c: Cell) {
    Lookup(row, c.field).Text? && Lookup(row, c.field).s in c.skip
  }

  function CellChange(rows: Store, c: Cell): Option<Change> {
    if KeyOfCell(c) !in rows then None
    else
      var row := Project(rows[KeyOfCell(c)], c.columns);
      if Skipped(row, c) then None
      else StateChange(c.kind, c.resourceId, c.selector, row, c.field, Text(c.value), c.changeKind, c.extra)
  }

  function Appended(changes: seq<Change>, change: Option<Change>): seq<Change> {
    if change.Some? then changes + [change.value] else changes
  }

  function MakeChanges(rows: Store, cells: seq<Cell>): seq<Change> {
    if cells == [] then []
    else Appended(MakeChanges(rows, cells[..|cells| - 1]), CellChange(rows, cells[|cells| - 1]))
  }

  /** One of the planners' loops: look at each row in turn and append its change. */
  method AppendChanges(rows: Store, cells: seq<Cell>, earlier: seq<Change>) returns (changes: seq<Change>)
    ensures changes == earlier + MakeChanges(rows, cells)
  {
    changes := earlier;
    for i := 0 to |cells|
      invariant changes == earlier + MakeChanges(rows, cells[..i])
    {
      assert cells[..i + 1][..i] == cells[..i];
      changes := Appended(changes, CellChange(rows, cells[i]));
    }
    assert cells[..|cells|] == cells;
  }

  lemma {:induction false} MakeChangesConcat(rows: Store, a: seq<Cell>, b: seq<Cell>)
    ensures MakeChanges(rows, a + b) == MakeChanges(rows, a) + MakeChanges(rows, b)
    decreases |b|
  {
    if b == [] {
      assert a + b == a;
    } else {
      assert (a + b)[..|a + b| - 1] == a + b[..|b| - 1];
      MakeChangesConcat(rows, a, b[..|b| - 1]);
    }
  }

  // ---- well-formed rows and cells ----

  /** The schema's promise for one row: every column a plan may touch is there, the version is
      a number, and no column holds the placeholder for the time of Apply. */
  predicate SchemaRow(kind: Kind, row: Row) {
    && SpecOf(kind).Some?
    && SpecOf(kind).value.allowed <= row.Keys
    && (VersionColumnOf(kind).Some? ==> row[VersionColumnOf(kind).value].Num?)
    && forall c | c in row :: row[c] != NOW
  }

  ghost predicate SchemaStore(rows: Store) {
    forall k | k in rows :: SchemaRow(k.kind, rows[k])
  }

  /** A cell whose planner selects every column it will write, and whose resource id leads back
      to its row. */
  predicate CompleteCell(c: Cell) {
    && SpecOf(c.kind).Some?
    && c.columns <= SpecOf(c.kind).value.allowed
    && c.field in c.columns && c.extra.Keys <= c.columns
    && (VersionColumnOf(c.kind).Some? ==> VersionColumnOf(c.kind).value in c.columns)
    && c.field !in {Version, Revision, ConfigVersion} && c.extra.Keys !! {c.field, Version, Revision, ConfigVersion}
    && Text(c.value) != NOW
    && SelectorComplete(SpecOf(c.kind).value, c.selector)
    && SelectorFor(c.kind, c.resourceId) == Success(c.selector)
  }

  /** What a cell has to fulfil for its row to settle, whatever its planner selects. */
  predicate Settleable(c: Cell) {
    && SpecOf(c.kind).Some?
    && c.field in c.columns && c.field in SpecOf(c.kind).value.allowed && c.extra.Keys <= SpecOf(c.kind).value.allowed
    && c.field !in {Version, Revision, ConfigVersion} && c.extra.Keys !! {c.field, Version, Revision, ConfigVersion}
    && Text(c.value) != NOW
  }

  ghost predicate DistinctCells(cells: seq<Cell>) {
    forall i, j | 0 <= i < j < |cells| :: KeyOfCell(cells[i]) != KeyOfCell(cells[j])
  }

  ghost predicate AllComplete(cells: seq<Cell>) {
    forall c | c in cells :: CompleteCell(c)
  }

  lemma CellChangeTargets(rows: Store, c: Cell)
    ensures CellChange(rows, c).Some? ==> TargetOf(CellChange(rows, c).value) == KeyOfCell(c)
  {
  }

  /** A complete cell makes a change that is good, passes, may be written and is stamped for
      the row's current version. */
  lemma CellChangeIsFresh(rows: Store, c: Cell)
    requires SchemaStore(rows) && CompleteCell(c) && CellChange(rows, c).Some?
    ensures var change := CellChange(rows, c).value;
      && Good(change) && Check(rows, change).Pass? && Writable(change)
      && NOW !in change.before.Values
      && (VersionColumnOf(c.kind).Some? ==> WrittenVersion(change) == VersionAt(rows, KeyOfCell(c)) + 1)
  {
    var key := KeyOfCell(c);
    var row := Project(rows[key], c.columns);
    var change := CellChange(rows, c).value;
    assert SchemaRow(c.kind, rows[key]);
    StateChangeIsGood(c.kind, c.resourceId, c.selector, row, c.field, Text(c.value), c.changeKind, c.extra);
    StateChangeIsFreshIff(rows[key], c.columns, c.kind, c.resourceId, c.selector,
                          c.field, Text(c.value), c.changeKind, c.extra);
    StateChangeShape(c.kind, c.resourceId, c.selector, row, c.field, Text(c.value), c.changeKind, c.extra);
    assert Check(rows, change).Pass?;
    forall col | col in change.before
      ensures change.before[col] != NOW
    {
      assert change.before[col] == Lookup(row, col);
    }
    if VersionColumnOf(c.kind).Some? {
      PassingShowsVersion(rows, change);
    }
  }

  // ---- what a list of cells does ----

  predicate ExtraHolds(row: Row, extra: Row) {
    forall c | c in extra :: if extra[c] == NOW then Lookup(row, c).Text? else Lookup(row, c) == extra[c]
  }

  /** The row afterwards: as before when it was in a state left alone, and otherwise in the
      wanted state with the extra columns set. */
  predicate Settled(rows: Store, out: Store, c: Cell) {
    KeyOfCell(c) in rows ==>
      && KeyOfCell(c) in out
      && if Skipped(rows[KeyOfCell(c)], c) then out[KeyOfCell(c)] == rows[KeyOfCell(c)]
         else Lookup(out[KeyOfCell(c)], c.field) == Text(c.value) && ExtraHolds(out[KeyOfCell(c)], c.extra)
  }

  lemma {:induction false} ChangesComeFromCells(rows: Store, cells: seq<Cell>, change: Change)
    ensures change in MakeChanges(rows, cells) <==> exists c :: c in cells && CellChange(rows, c) == Some(change)
    decreases |cells|
  {
    if cells != [] {
      var init, last := cells[..|cells| - 1], cells[|cells| - 1];
      assert cells == init + [last];
      ChangesComeFromCells(rows, init, change);
      if CellChange(rows, last) == Some(change) {
        assert last in cells;
      }
      if c :| c in init && CellChange(rows, c) == Some(change) {
        assert c in cells;
      }
    }
  }

  lemma DistinctPrefix(cells: seq<Cell>)
    requires cells != [] && DistinctCells(cells)
    ensures DistinctCells(cells[..|cells| - 1])
    ensures forall c | c in cells[..|cells| - 1] :: KeyOfCell(c) != KeyOfCell(cells[|cells| - 1])
  {
    var init := cells[..|cells| - 1];
    forall c | c in init
      ensures KeyOfCell(c) != KeyOfCell(cells[|cells| - 1])
    {
      var i :| 0 <= i < |init| && init[i] == c;
      assert cells[i] == c;
    }
  }

  lemma {:induction false} MadeChangesAreDistinct(rows: Store, cells: seq<Cell>)
    requires DistinctCells(cells)
    ensures Distinct(MakeChanges(rows, cells))
    decreases |cells|
  {
    if cells != [] {
      var init, last := cells[..|cells| - 1], cells[|cells| - 1];
      DistinctPrefix(cells);
      MadeChangesAreDistinct(rows, init);
      var made := MakeChanges(rows, init);
      if CellChange(rows, last).Some? {
        CellChangeTargets(rows, last);
        forall i | 0 <= i < |made|
          ensures TargetOf(made[i]) != KeyOfCell(last)
        {
          ChangesComeFromCells(rows, init, made[i]);
          var c :| c in init && CellChange(rows, c) == Some(made[i]);
          CellChangeTargets(rows, c);
        }
      }
    }
  }

  lemma MadeChangesAreFresh(rows: Store, cells: seq<Cell>)
    requires SchemaStore(rows) && DistinctCells(cells) && AllComplete(cells)
    ensures Fresh(rows, MakeChanges(rows, cells))
    ensures AllCheck(rows, MakeChanges(rows, cells)) && AllWritable(MakeChanges(rows, cells))
    ensures forall i | 0 <= i < |MakeChanges(rows, cells)| :: NOW !in MakeChanges(rows, cells)[i].before.Values
  {
    var made := MakeChanges(rows, cells);
    MadeChangesAreDistinct(rows, cells);
    forall i | 0 <= i < |made|
      ensures Good(made[i]) && Check(rows, made[i]).Pass? && Writable(made[i]) && NOW !in made[i].before.Values
      ensures VersionColumnOf(made[i].kind).Some? ==>
                WrittenVersion(made[i]) == VersionAt(rows, TargetOf(made[i])) + 1
    {
      ChangesComeFromCells(rows, cells, made[i]);
      var c :| c in cells && CellChange(rows, c) == Some(made[i]);
      CellChangeIsFresh(rows, c);
      CellChangeTargets(rows, c);
    }
  }

  lemma ChangedRowSettles(row: Row, c: Cell, change: Change, now: string)
    requires Settleable(c) && SpecOf(c.kind).value.allowed <= row.Keys
    requires StateChange(c.kind, c.resourceId, c.selector, Project(row, c.columns), c.field, Text(c.value),
                         c.changeKind, c.extra) == Some(change)
    ensures Lookup(WrittenRow(row, change, now), c.field) == Text(c.value)
    ensures ExtraHolds(WrittenRow(row, change, now), c.extra)
  {
    SpecFacts(c.kind);
    StateChangeShape(c.kind, c.resourceId, c.selector, Project(row, c.columns), c.field, Text(c.value),
                     c.changeKind, c.extra);
    var out := WrittenRow(row, change, now);
    assert c.field !in Counters(Project(row, c.columns));
    forall e | e in c.extra
      ensures if c.extra[e] == NOW then Lookup(out, e) == Text(now) else Lookup(out, e) == c.extra[e]
    {
      assert e !in Counters(Project(row, c.columns)) && e != UpdatedAt;
      assert change.after[e] == c.extra[e];
    }
  }

  lemma UnchangedRowIsSettled(row: Row, c: Cell)
    requires StateChange(c.kind, c.resourceId, c.selector, Project(row, c.columns), c.field, Text(c.value),
                         c.changeKind, c.extra).None?
    ensures Lookup(row, c.field) == Text(c.value) && ExtraHolds(row, c.extra)
  {
  }

  lemma CellSettles(rows: Store, out: Store, cells: seq<Cell>, c: Cell, now: string)
    requires SchemaStore(rows) && DistinctCells(cells) && Settleable(c) && c in cells
    requires IsSimultaneous(rows, MakeChanges(rows, cells), now, out)
    ensures Settled(rows, out, c)
  {
    var made := MakeChanges(rows, cells);
    var key := KeyOfCell(c);
    if key in rows {
      assert SchemaRow(c.kind, rows[key]);
      assert Skipped(Project(rows[key], c.columns), c) <==> Skipped(rows[key], c);
      match CellChange(rows, c) {
        case Some(change) =>
          ChangesComeFromCells(rows, cells, change);
          CellChangeTargets(rows, c);
          ChangedRowSettles(rows[key], c, change, now);
        case None =>
          assert !Touches(made, key) by {
            forall change | change in made
              ensures TargetOf(change) != key
            {
              ChangesComeFromCells(rows, cells, change);
              var d :| d in cells && CellChange(rows, d) == Some(change);
              CellChangeTargets(rows, d);
              DistinctCellsByKey(cells, c, d);
            }
          }
          if !Skipped(rows[key], c) {
            UnchangedRowIsSettled(rows[key], c);
          }
      }
    }
  }

  lemma DistinctCellsByKey(cells: seq<Cell>, c: Cell, d: Cell)
    requires DistinctCells(cells) && c in cells && d in cells
    ensures KeyOfCell(c) == KeyOfCell(d) ==> c == d
  {
    var i :| 0 <= i < |cells| && cells[i] == c;
    var j :| 0 <= j < |cells| && cells[j] == d;
    assert i < j || j < i || i == j;
  }

  /** `out` is what planning and applying the cells to `rows` comes to. */
  ghost predicate Cascaded(rows: Store, out: Store, cells: seq<Cell>) {
    && out.Keys == rows.Keys
    && (forall c | c in cells :: Settled(rows, out, c))
    && (forall k | k in rows && (forall c | c in cells :: KeyOfCell(c) != k) :: out[k] == rows[k])
  }

  /** A plan made from cells, if it goes through, settles every cell and touches nothing else. */
  lemma AppliedPlanCascades(rows: Store, cells: seq<Cell>, now: string)
    requires SchemaStore(rows) && DistinctCells(cells) && forall c | c in cells :: Settleable(c)
    requires ApplyAll(rows, MakeChanges(rows, cells), now).Success?
    ensures Cascaded(rows, ApplyAll(rows, MakeChanges(rows, cells), now).value.0, cells)
  {
    var made := MakeChanges(rows, cells);
    MadeChangesAreDistinct(rows, cells);
    SequentialIsSimultaneous(rows, made, now);
    var out := ApplyAll(rows, made, now).value.0;
    forall c | c in cells
      ensures Settled(rows, out, c)
    {
      CellSettles(rows, out, cells, c, now);
    }
    forall k | k in rows && (forall c | c in cells :: KeyOfCell(c) != k)
      ensures out[k] == rows[k]
    {
      forall change | change in made
        ensures TargetOf(change) != k
      {
        ChangesComeFromCells(rows, cells, change);
        var d :| d in cells && CellChange(rows, d) == Some(change);
        CellChangeTargets(rows, d);
      }
      assert !Touches(made, k);
    }
  }

  /** A freshly made plan goes through, settles every cell and touches nothing else. */
  lemma FreshPlanCascades(rows: Store, cells: seq<Cell>, now: string)
    requires SchemaStore(rows) && DistinctCells(cells) && AllComplete(cells)
    ensures Fresh(rows, MakeChanges(rows, cells))
    ensures ApplyAll(rows, MakeChanges(rows, cells), now).Success?
    ensures Cascaded(rows, ApplyAll(rows, MakeChanges(rows, cells), now).value.0, cells)
  {
    MadeChangesAreFresh(rows, cells);
    SequentialIsSimultaneous(rows, MakeChanges(rows, cells), now);
    AppliedPlanCascades(rows, cells, now);
  }

  /** A cell that does not select all it writes still makes a change, but the change passes
      exactly when the columns it overlooked are null in the table. */
  lemma OverlookedColumnsDecide(rows: Store, c: Cell)
    requires SchemaStore(rows) && CellChange(rows, c).Some?
    requires CompleteCell(c.(columns := c.columns + c.extra.Keys)) && c.field in c.columns
    requires VersionColumnOf(c.kind).Some? ==> VersionColumnOf(c.kind).value in c.columns
    ensures Check(rows, CellChange(rows, c).value).Pass? <==>
            forall col | col in c.extra && col !in c.columns :: rows[KeyOfCell(c)][col] == Null
  {
    var key := KeyOfCell(c);
    var row := Project(rows[key], c.columns);
    assert SchemaRow(c.kind, rows[key]);
    StateChangeIsGood(c.kind, c.resourceId, c.selector, row, c.field, Text(c.value), c.changeKind, c.extra);
    StateChangeIsFreshIff(rows[key], c.columns, c.kind, c.resourceId, c.selector,
                          c.field, Text(c.value), c.changeKind, c.extra);
  }
}
