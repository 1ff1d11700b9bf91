/** Planning to move a managed note (note-move-plan.ts). It is the one planner of reversible row
    changes that does not go through the common helper; its changes are as good as the helper's. */
module NoteMove {
  import opened Outcomes
  import opened MutationStore
  import opened MutationLaws
  import opened Undo
  import opened StateChanges
  import opened OperationLog
  import opened OperationHistory
  import opened Cells

  datatype MoveError = NoteMissing | NoteNotActive | SourceNotActive | SamePlace | TargetExists | FileMissing

  const SOURCE_ID := OtherColumn("source_id")

  /** The specification of a source with its locator set to a path. */
  type Relocate = (string, string) -> string

  /** What the schema says of a note and of a source, beyond the columns plans may touch. */
  predicate NoteRow(row: Row) {
    SchemaRow(Note, row) && row[RelativePath].Text? && SOURCE_ID in row && row[SOURCE_ID].Text? && row[SOURCE_ID].s != ""
  }

  predicate SourceRow(row: Row) {
    SchemaRow(Source, row) && row[SpecJson].Json?
  }

  ghost predicate NoteStore(rows: Store) {
    && SchemaStore(rows)
    && (forall k | k in rows && k.kind == Note :: NoteRow(rows[k]))
    && (forall k | k in rows && k.kind == Source :: SourceRow(rows[k]))
  }

  function NoteChange(note: string, row: Row, to: string): Change
    requires NoteRow(row)
  {
    Change(note, Note, "moved", [note],
           map[RelativePath := row[RelativePath], Version := row[Version]],
           map[RelativePath := Text(to), Version := Num(row[Version].n + 1)])
  }

  function SourceChange(source: string, row: Row, to: string, relocate: Relocate): Change
    requires SourceRow(row)
  {
    Change(source, Source, "locator_changed", [source],
           map[SpecJson := row[SpecJson], Version := row[Version]],
           map[SpecJson := Json(relocate(row[SpecJson].text, to)), Version := Num(row[Version].n + 1)])
  }

  function SourceOf(rows: Store, note: string): Key
    requires Key(Note, [note]) in rows && NoteRow(rows[Key(Note, [note])])
  {
    Key(Source, [rows[Key(Note, [note])][SOURCE_ID].s])
  }

  predicate Active(rows: Store, k: Key) {
    k in rows && Lookup(rows[k], State) == Text("active")
  }

  /** describeNoteMove; `to` is where the target directory puts the note, under content/notes. */
  method DescribeNoteMove(rows: Store, files: map<string, string>, note: string, to: string, relocate: Relocate)
    returns (r: Result<seq<Change>, MoveError>)
    requires NoteStore(rows)
    ensures r.Success? <==>
      && Active(rows, Key(Note, [note])) && Active(rows, SourceOf(rows, note))
      && rows[Key(Note, [note])][RelativePath] != Text(to) && to !in files
      && rows[Key(Note, [note])][RelativePath].s in files
    ensures r.Success? ==> r.value == MoveChanges(rows, note, to, relocate)
    ensures r.Failure? ==>
      match r.error
      case NoteMissing => Key(Note, [note]) !in rows
      case NoteNotActive => Key(Note, [note]) in rows && !Active(rows, Key(Note, [note]))
      case SourceNotActive => Active(rows, Key(Note, [note])) && !Active(rows, SourceOf(rows, note))
      case SamePlace => Active(rows, Key(Note, [note])) && rows[Key(Note, [note])][RelativePath] == Text(to)
      case TargetExists => to in files
      case FileMissing => Active(rows, Key(Note, [note])) && rows[Key(Note, [note])][RelativePath].s !in files
  {
    var k := Key(Note, [note]);
    if k !in rows {
      return Failure(NoteMissing);
    }
    if Lookup(rows[k], State) != Text("active") {
      return Failure(NoteNotActive);
    }
    var source := SourceOf(rows, note);
    if source !in rows || Lookup(rows[source], State) != Text("active") {
      return Failure(SourceNotActive);
    }
    var from := rows[k][RelativePath].s;
    if from == to {
      return Failure(SamePlace);
    }
    if to in files {
      return Failure(TargetExists);
    }
    if from !in files {
      return Failure(FileMissing);
    }
    return Success([NoteChange(note, rows[k], to), SourceChange(source.ids[0], rows[source], to, relocate)]);
  }

  function MoveChanges(rows: Store, note: string, to: string, relocate: Relocate): seq<Change>
    requires Key(Note, [note]) in rows && NoteRow(rows[Key(Note, [note])])
    requires SourceOf(rows, note) in rows && SourceRow(rows[SourceOf(rows, note)])
  {
    [NoteChange(note, rows[Key(Note, [note])], to),
     SourceChange(SourceOf(rows, note).ids[0], rows[SourceOf(rows, note)], to, relocate)]
  }

  lemma NoteChangeIsGood(rows: Store, note: string, to: string)
    requires note != "" && Key(Note, [note]) in rows && NoteRow(rows[Key(Note, [note])])
    ensures var c := NoteChange(note, rows[Key(Note, [note])], to);
      && Good(c) && Check(rows, c).Pass? && Writable(c) && NOW !in c.before.Values
      && WrittenVersion(c) == VersionAt(rows, TargetOf(c)) + 1
  {
    var row := rows[Key(Note, [note])];
    var c := NoteChange(note, row, to);
    assert RelativePath in c.before && RelativePath in c.after && [note][0] != "";
    assert Project(row, c.before.Keys) == c.before;
  }

  lemma SourceChangeIsGood(rows: Store, source: string, to: string, relocate: Relocate)
    requires source != "" && Key(Source, [source]) in rows && SourceRow(rows[Key(Source, [source])])
    ensures var c := SourceChange(source, rows[Key(Source, [source])], to, relocate);
      && Good(c) && Check(rows, c).Pass? && Writable(c) && NOW !in c.before.Values
      && WrittenVersion(c) == VersionAt(rows, TargetOf(c)) + 1
  {
    var row := rows[Key(Source, [source])];
    var c := SourceChange(source, row, to, relocate);
    assert SpecJson in c.before && SpecJson in c.after && [source][0] != "";
    assert Project(row, c.before.Keys) == c.before;
  }

  lemma {:induction false} MoveIsFresh(rows: Store, note: string, to: string, relocate: Relocate, plan: seq<Change>)
    requires NoteStore(rows) && note != "" && Key(Note, [note]) in rows && SourceOf(rows, note) in rows
    requires plan == MoveChanges(rows, note, to, relocate)
    ensures Fresh(rows, plan) && AllCheck(rows, plan) && AllWritable(plan)
    ensures forall i | 0 <= i < |plan| :: NOW !in plan[i].before.Values && VersionColumnOf(plan[i].kind) == Some(Version)
  {
    NoteChangeIsGood(rows, note, to);
    SourceChangeIsGood(rows, SourceOf(rows, note).ids[0], to, relocate);
    assert TargetOf(plan[0]).kind == Note && TargetOf(plan[1]).kind == Source;
  }

  /** Every row the plan wrote is as it was, but for its version, two higher, and updated_at. */
  ghost predicate Returned(rows: Store, last: Store, plan: seq<Change>) {
    forall i | 0 <= i < |plan| ::
      && TargetOf(plan[i]) in rows && TargetOf(plan[i]) in last
      && SameExcept(rows[TargetOf(plan[i])], last[TargetOf(plan[i])], Some(Version))
      && VersionAt(last, TargetOf(plan[i])) == VersionAt(rows, TargetOf(plan[i])) + 2
  }

  lemma {:induction false} FreshPlanReturns(rows: Store, plan: seq<Change>, t1: Time, t2: Time) returns (mid: Store, last: Store)
    requires Fresh(rows, plan) && AllCheck(rows, plan) && AllWritable(plan) && plan != []
    requires forall i | 0 <= i < |plan| :: NOW !in plan[i].before.Values && VersionColumnOf(plan[i].kind) == Some(Version)
    ensures ApplyAll(rows, plan, t1).Success? && ApplyAll(rows, plan, t1).value.0 == mid
    ensures ApplyAll(mid, UndoPlan(plan, t1), t2).Success? && ApplyAll(mid, UndoPlan(plan, t1), t2).value.0 == last
    ensures Returned(rows, last, plan)
  {
    SequentialIsSimultaneous(rows, plan, t1);
    PlannedChangesUndo(rows, plan, t1, t2, 0);
    mid := ApplyAll(rows, plan, t1).value.0;
    last := ApplyAll(mid, UndoPlan(plan, t1), t2).value.0;
    forall i | 0 <= i < |plan|
      ensures TargetOf(plan[i]) in rows && TargetOf(plan[i]) in last
      ensures SameExcept(rows[TargetOf(plan[i])], last[TargetOf(plan[i])], Some(Version))
      ensures VersionAt(last, TargetOf(plan[i])) == VersionAt(rows, TargetOf(plan[i])) + 2
    {
      PlannedChangesUndo(rows, plan, t1, t2, i);
    }
  }

  /** The move is a fresh plan that goes through, and its undo gives back the note and its source. */
  lemma {:induction false} NoteMovesAndReturns(rows: Store, note: string, to: string, relocate: Relocate, t1: Time, t2: Time)
    returns (mid: Store, last: Store)
    requires NoteStore(rows) && note != "" && Key(Note, [note]) in rows && SourceOf(rows, note) in rows
    ensures var plan := MoveChanges(rows, note, to, relocate);
      && Fresh(rows, plan) && ApplyAll(rows, plan, t1).Success? && ApplyAll(rows, plan, t1).value.0 == mid
      && ApplyAll(mid, UndoPlan(plan, t1), t2).Success? && ApplyAll(mid, UndoPlan(plan, t1), t2).value.0 == last
      && Returned(rows, last, plan)
  {
    var plan := MoveChanges(rows, note, to, relocate);
    MoveIsFresh(rows, note, to, relocate, plan);
    mid, last := FreshPlanReturns(rows, plan, t1, t2);
  }
}
