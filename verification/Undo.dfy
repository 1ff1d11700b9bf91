/** Reversing recorded changes (reverseOperationChanges): selectors are parsed back out of
    resource ids, before and after swap, and the version moves on rather than back. */
module Undo {
  import opened Outcomes
  import opened MutationStore
  import opened MutationLaws

  // ---- composite resource ids ----

  function JoinIds(a: string, b: string): string {
    a + "::" + b
  }

  predicate SeparatorAt(s: string, i: nat) {
    i + 1 < |s| && s[i] == ':' && s[i + 1] == ':'
  }

  /** `s.split("::")`: leftmost separators first, never overlapping. */
  function Split(s: string): (parts: seq<string>)
    ensures |parts| >= 1
  {
    if |s| < 2 then [s]
    else if SeparatorAt(s, 0) then [""] + Split(s[2..])
    else
      var rest := Split(s[1..]);
      [[s[0]] + rest[0]] + rest[1..]
  }

  ghost predicate HasSeparator(s: string) {
    exists i: nat :: SeparatorAt(s, i)
  }

  predicate EndsInColon(s: string) {
    s != "" && s[|s| - 1] == ':'
  }

  lemma HasSeparatorUnfolds(s: string)
    requires s != ""
    ensures HasSeparator(s) <==> SeparatorAt(s, 0) || HasSeparator(s[1..])
  {
    if HasSeparator(s) {
      var i: nat :| SeparatorAt(s, i);
      if i > 0 {
        assert SeparatorAt(s[1..], i - 1);
      }
    }
    if HasSeparator(s[1..]) {
      var i: nat :| SeparatorAt(s[1..], i);
      assert SeparatorAt(s, i + 1);
    }
  }

  lemma {:induction false} SplitIsWhole(s: string)
    ensures Split(s) == [s] <==> !HasSeparator(s)
    ensures |Split(s)| == 1 <==> !HasSeparator(s)
  {
    if |s| < 2 {
    } else {
      HasSeparatorUnfolds(s);
      if SeparatorAt(s, 0) {
      } else {
        SplitIsWhole(s[1..]);
        assert s == [s[0]] + s[1..];
      }
    }
  }

  /** A composite id parses back into its two parts exactly when neither part contains the
      separator and the first does not end in a colon. */
  lemma {:induction false} SplitJoinIff(a: string, b: string)
    ensures Split(JoinIds(a, b)) == [a, b] <==> !HasSeparator(a) && !HasSeparator(b) && !EndsInColon(a)
  {
    var s := JoinIds(a, b);
    if a == "" {
      assert s[2..] == b;
      SplitIsWhole(b);
      assert Split(s) == [""] + Split(b);
      if Split(s) == [a, b] {
        assert Split(b) == Split(s)[1..] == [b];
      }
    } else {
      HasSeparatorUnfolds(a);
      assert s[1..] == JoinIds(a[1..], b);
      SplitJoinIff(a[1..], b);
      assert a == [a[0]] + a[1..];
      if SeparatorAt(s, 0) {
        assert Split(s)[0] == "";
        assert |a| >= 2 ==> SeparatorAt(a, 0);
      } else {
        var rest := Split(s[1..]);
        assert Split(s)[0] == [a[0]] + rest[0] && Split(s)[1..] == rest[1..];
        if Split(s) == [a, b] {
          assert rest[0] == Split(s)[0][1..] == a[1..];
          assert rest == [rest[0]] + rest[1..];
        }
      }
    }
  }

  // ---- reversing ----

  function SelectorFor(kind: Kind, resourceId: string): Result<seq<string>, Error> {
    match SpecOf(kind)
    case None => Failure(InvalidChange)
    case Some(spec) =>
      if spec.keyCount == 1 then Success([resourceId])
      else
        var values := Split(resourceId);
        if |values| != spec.keyCount then Failure(UndoInvalid) else Success(values)
  }

  /** `after.version ?? after.revision ?? after.config_version`, when it is a number. */
  function CurrentVersion(after: Row): Option<int> {
    var first := FirstNonNull(after, Version, Revision);
    NumberIn(if first != Null then first else Lookup(after, ConfigVersion))
  }

  /** The column whose version the reversal moves on, if any. */
  function BumpColumn(after: Row): Option<Column> {
    if CurrentVersion(after).None? then None
    else if Version in after then Some(Version)
    else if Revision in after then Some(Revision)
    else Some(ConfigVersion)
  }

  function ReversedAfter(before: Row, after: Row): Row {
    match BumpColumn(after)
    case None => before
    case Some(c) => before[c := Num(CurrentVersion(after).value + 1)]
  }

  function ReverseOne(r: Recorded): Result<Change, Error> {
    match SelectorFor(r.kind, r.resourceId)
    case Failure(e) => Failure(e)
    case Success(selector) =>
      Success(Change(r.resourceId, r.kind, "undo_" + r.changeKind, selector,
                     r.after, ReversedAfter(r.before, r.after)))
  }

  function Reverse(recorded: seq<Recorded>): Result<seq<Change>, Error> {
    if recorded == [] then Success([])
    else
      match ReverseOne(recorded[0])
      case Failure(e) => Failure(e)
      case Success(first) =>
        match Reverse(recorded[1..])
        case Failure(e) => Failure(e)
        case Success(rest) => Success([first] + rest)
  }

  // ---- undo restores ----

  /** The resource id names the same row as the selector. */
  predicate Addressed(c: Change) {
    SelectorFor(c.kind, c.resourceId) == Success(c.selector)
  }

  /** The columns a change may speak of, and it speaks of some before and after. */
  predicate Columnar(c: Change) {
    && SpecOf(c.kind).Some?
    && c.before.Keys <= SpecOf(c.kind).value.allowed && c.after.Keys <= SpecOf(c.kind).value.allowed
    && c.before != map[] && c.after != map[]
  }

  lemma AllowedIsNotUpdatedAt(kind: Kind)
    requires SpecOf(kind).Some?
    ensures UpdatedAt !in SpecOf(kind).value.allowed
    ensures SpecOf(kind).value.keyCount in {1, 2}
  {
  }

  ghost predicate SameExcept(a: Row, b: Row, bump: Option<Column>) {
    forall c: Column | c != UpdatedAt && Some(c) != bump :: (c in a <==> c in b) && Lookup(a, c) == Lookup(b, c)
  }

  /** What a caller can check before applying `c` to `row`: columns written but not tested keep
      their value, and no tested column holds the literal placeholder for the time of Apply. */
  predicate UndoFaithful(row: Row, c: Change, now: string) {
    var after := Materialize(c.after, now);
    && (forall col | col in c.before && Some(col) != BumpColumn(after) :: c.before[col] != NOW)
    && (forall col | col in after && col !in c.before && Some(col) != BumpColumn(after) ::
          col in row && row[col] == after[col])
  }

  function UndoOf(c: Change, now: string): Change {
    var r := RecordOf(c, now);
    Change(c.resourceId, c.kind, "undo_" + c.changeKind, c.selector, r.after, ReversedAfter(r.before, r.after))
  }

  lemma BumpIsWritten(c: Change, now: string)
    requires Columnar(c)
    ensures var after := Materialize(c.after, now);
      BumpColumn(after).Some? ==> BumpColumn(after).value in after && BumpColumn(after).value in c.after
  {
  }

  /** The reversed change passes on any row that still holds what the change wrote. */
  lemma UndoChecks(rows: Store, c: Change, now: string)
    requires Columnar(c) && SelectorComplete(SpecOf(c.kind).value, c.selector)
    requires TargetOf(c) in rows
    requires Project(rows[TargetOf(c)], c.after.Keys) == Materialize(c.after, now)
    ensures TargetOf(UndoOf(c, now)) == TargetOf(c)
    ensures Check(rows, UndoOf(c, now)).Pass? && Writable(UndoOf(c, now)) && Columnar(UndoOf(c, now))
  {
    BumpIsWritten(c, now);
    assert Materialize(c.after, now).Keys == c.after.Keys;
    var b :| b in c.before;
    assert b in ReversedAfter(c.before, Materialize(c.after, now));
  }

  lemma WrittenHoldsAfter(row: Row, c: Change, now: string)
    requires Columnar(c)
    ensures Project(WrittenRow(row, c, now), c.after.Keys) == Materialize(c.after, now)
  {
    AllowedIsNotUpdatedAt(c.kind);
  }

  /** One row, changed and changed back: it is as it was, outside updated_at and the version,
      exactly when the change was faithful. */
  lemma UndoRestoresIff(row: Row, c: Change, t1: string, t2: string)
    requires Columnar(c)
    requires Project(row, c.before.Keys) == c.before
    requires t2 != NOW.s
    ensures SameExcept(row, WrittenRow(WrittenRow(row, c, t1), UndoOf(c, t1), t2), BumpColumn(Materialize(c.after, t1)))
            <==> UndoFaithful(row, c, t1)
  {
    AllowedIsNotUpdatedAt(c.kind);
    BumpIsWritten(c, t1);
    var after := Materialize(c.after, t1);
    var bump := BumpColumn(after);
    var undo := UndoOf(c, t1);
    var last := WrittenRow(WrittenRow(row, c, t1), undo, t2);
    forall col | col in c.before
      ensures col in row && row[col] == c.before[col]
    {
      assert col in Project(row, c.before.Keys);
    }
    forall col: Column | col != UpdatedAt && Some(col) != bump
      ensures ((col in row <==> col in last) && Lookup(row, col) == Lookup(last, col)) <==>
              ((col in c.before ==> c.before[col] != NOW) &&
               (col in after && col !in c.before ==> col in row && row[col] == after[col]))
    {
      if col in c.before {
        assert undo.after[col] == c.before[col];
        assert last[col] == if c.before[col] == NOW then Text(t2) else c.before[col];
      } else if col in after {
        assert col !in undo.after;
        assert last[col] == after[col];
      }
    }
    if UndoFaithful(row, c, t1) {
      assert SameExcept(row, last, bump);
    }
    if SameExcept(row, last, bump) {
      forall col | col in c.before && Some(col) != bump
        ensures c.before[col] != NOW
      {
        assert col != UpdatedAt;
      }
      forall col | col in after && col !in c.before && Some(col) != bump
        ensures col in row && row[col] == after[col]
      {
        assert col != UpdatedAt;
      }
    }
  }

  lemma UndoMovesVersionOn(row: Row, c: Change, t1: string, t2: string)
    requires Columnar(c)
    requires BumpColumn(Materialize(c.after, t1)).Some?
    ensures var after := Materialize(c.after, t1);
      var column := BumpColumn(after).value;
      var last := WrittenRow(WrittenRow(row, c, t1), UndoOf(c, t1), t2);
      column in last && last[column] == Num(CurrentVersion(after).value + 1)
  {
    AllowedIsNotUpdatedAt(c.kind);
    BumpIsWritten(c, t1);
  }

  ghost predicate AllReversible(plan: seq<Change>) {
    forall i | 0 <= i < |plan| :: Columnar(plan[i]) && Addressed(plan[i])
  }

  function UndoPlan(plan: seq<Change>, now: string): (u: seq<Change>)
    ensures |u| == |plan|
    ensures forall i | 0 <= i < |plan| :: u[i] == UndoOf(plan[i], now)
  {
    seq(|plan|, i requires 0 <= i < |plan| => UndoOf(plan[i], now))
  }

  lemma ReverseOneIsUndo(c: Change, now: string)
    requires Addressed(c)
    ensures ReverseOne(RecordOf(c, now)) == Success(UndoOf(c, now))
  {
  }

  lemma UndoPlanOfCons(first: Change, rest: seq<Change>, now: string)
    ensures UndoPlan([first] + rest, now) == [UndoOf(first, now)] + UndoPlan(rest, now)
  {
  }

  /** The reversed changes of a recorded plan are the undo of each change, in the same order. */
  lemma {:induction false} ReverseIsUndoPlan(plan: seq<Change>, recorded: seq<Recorded>, now: string)
    requires |recorded| == |plan|
    requires forall i | 0 <= i < |plan| :: ReverseOne(recorded[i]) == Success(UndoOf(plan[i], now))
    ensures Reverse(recorded) == Success(UndoPlan(plan, now))
  {
    if plan == [] {
      assert UndoPlan(plan, now) == [];
    } else {
      var rest := plan[1..];
      ReverseIsUndoPlan(rest, recorded[1..], now);
      UndoPlanOfCons(plan[0], rest, now);
      assert plan == [plan[0]] + rest;
    }
  }

  /** Wherever every row still holds what the plan wrote, the undo passes in full. */
  lemma UndoPasses(later: Store, plan: seq<Change>, now: string)
    requires Distinct(plan) && AllReversible(plan)
    requires forall i | 0 <= i < |plan| ::
               && SelectorComplete(SpecOf(plan[i].kind).value, plan[i].selector)
               && TargetOf(plan[i]) in later
               && Project(later[TargetOf(plan[i])], plan[i].after.Keys) == Materialize(plan[i].after, now)
    ensures Distinct(UndoPlan(plan, now))
    ensures AllCheck(later, UndoPlan(plan, now)) && AllWritable(UndoPlan(plan, now))
  {
    var undo := UndoPlan(plan, now);
    forall i | 0 <= i < |undo|
      ensures Check(later, undo[i]).Pass? && Writable(undo[i]) && TargetOf(undo[i]) == TargetOf(plan[i])
    {
      UndoChecks(later, plan[i], now);
    }
  }

  lemma CheckGives(rows: Store, c: Change)
    requires Check(rows, c).Pass?
    ensures SpecOf(c.kind).Some? && SelectorComplete(SpecOf(c.kind).value, c.selector)
    ensures TargetOf(c) in rows && Project(rows[TargetOf(c)], c.before.Keys) == c.before
  {
  }

  lemma AppliedHolds(rows: Store, plan: seq<Change>, now: string)
    requires Distinct(plan) && AllReversible(plan)
    requires ApplyAll(rows, plan, now).Success?
    ensures var later := ApplyAll(rows, plan, now).value.0;
      forall i | 0 <= i < |plan| ::
        && SelectorComplete(SpecOf(plan[i].kind).value, plan[i].selector)
        && TargetOf(plan[i]) in later
        && Project(later[TargetOf(plan[i])], plan[i].after.Keys) == Materialize(plan[i].after, now)
  {
    SequentialIsSimultaneous(rows, plan, now);
    forall i | 0 <= i < |plan|
      ensures SelectorComplete(SpecOf(plan[i].kind).value, plan[i].selector)
      ensures TargetOf(plan[i]) in rows
      ensures Project(WrittenRow(rows[TargetOf(plan[i])], plan[i], now), plan[i].after.Keys)
              == Materialize(plan[i].after, now)
    {
      CheckGives(rows, plan[i]);
      WrittenHoldsAfter(rows[TargetOf(plan[i])], plan[i], now);
      assert plan[i] in plan;
    }
  }

  ghost predicate UndoneRow(before: Row, last: Row, c: Change, t1: string) {
    var after := Materialize(c.after, t1);
    var bump := BumpColumn(after);
    && (SameExcept(before, last, bump) <==> UndoFaithful(before, c, t1))
    && (bump.Some? ==> bump.value in last && last[bump.value] == Num(CurrentVersion(after).value + 1))
  }

  /** `last` is `rows` with the plan of time `t1` undone: other rows are untouched, each version
      has moved on by one, and a row is given back exactly when its change was faithful. */
  ghost predicate IsUndone(rows: Store, plan: seq<Change>, t1: string, last: Store) {
    && last.Keys == rows.Keys
    && (forall k | k in rows && !Touches(plan, k) :: last[k] == rows[k])
    && (forall c | c in plan :: TargetOf(c) in rows && UndoneRow(rows[TargetOf(c)], last[TargetOf(c)], c, t1))
  }

  lemma UndoneRowHolds(row: Row, c: Change, t1: string, t2: string)
    requires Columnar(c)
    requires Project(row, c.before.Keys) == c.before
    requires t2 != NOW.s
    ensures UndoneRow(row, WrittenRow(WrittenRow(row, c, t1), UndoOf(c, t1), t2), c, t1)
  {
    UndoRestoresIff(row, c, t1, t2);
    if BumpColumn(Materialize(c.after, t1)).Some? {
      UndoMovesVersionOn(row, c, t1, t2);
    }
  }

  lemma UndoTouchesTheSame(plan: seq<Change>, now: string, k: Key)
    ensures Touches(UndoPlan(plan, now), k) ==> Touches(plan, k)
  {
    var undo := UndoPlan(plan, now);
    if Touches(undo, k) {
      var c :| c in undo && TargetOf(c) == k;
      var i :| 0 <= i < |undo| && undo[i] == c;
      assert plan[i] in plan && TargetOf(plan[i]) == k;
    }
  }

  lemma TwoUpdatesUndo(rows: Store, mid: Store, last: Store, plan: seq<Change>, t1: string, t2: string)
    requires AllReversible(plan) && AllCheck(rows, plan)
    requires IsSimultaneous(rows, plan, t1, mid)
    requires IsSimultaneous(mid, UndoPlan(plan, t1), t2, last)
    requires t2 != NOW.s
    ensures IsUndone(rows, plan, t1, last)
  {
    forall k | k in rows && !Touches(plan, k)
      ensures last[k] == rows[k]
    {
      UndoTouchesTheSame(plan, t1, k);
    }
    forall c | c in plan
      ensures TargetOf(c) in rows && UndoneRow(rows[TargetOf(c)], last[TargetOf(c)], c, t1)
    {
      var i :| 0 <= i < |plan| && plan[i] == c;
      CheckGives(rows, c);
      assert UndoPlan(plan, t1)[i] == UndoOf(c, t1) && UndoOf(c, t1) in UndoPlan(plan, t1);
      assert TargetOf(UndoOf(c, t1)) == TargetOf(c);
      UndoneRowHolds(rows[TargetOf(c)], c, t1, t2);
    }
  }

  /** Undoing a plan straight after applying it always goes through. */
  lemma UndoGoesThrough(rows: Store, plan: seq<Change>, t1: string, t2: string)
    requires Distinct(plan) && AllReversible(plan)
    requires ApplyAll(rows, plan, t1).Success?
    ensures Reverse(ApplyAll(rows, plan, t1).value.1) == Success(UndoPlan(plan, t1))
    ensures ApplyAll(ApplyAll(rows, plan, t1).value.0, UndoPlan(plan, t1), t2).Success?
  {
    SequentialIsSimultaneous(rows, plan, t1);
    forall i | 0 <= i < |plan|
      ensures ReverseOne(ApplyAll(rows, plan, t1).value.1[i]) == Success(UndoOf(plan[i], t1))
    {
      ReverseOneIsUndo(plan[i], t1);
    }
    ReverseIsUndoPlan(plan, ApplyAll(rows, plan, t1).value.1, t1);
    AppliedHolds(rows, plan, t1);
    UndoPasses(ApplyAll(rows, plan, t1).value.0, plan, t1);
    SequentialIsSimultaneous(ApplyAll(rows, plan, t1).value.0, UndoPlan(plan, t1), t2);
  }

  lemma UndoInverts(rows: Store, plan: seq<Change>, t1: string, t2: string)
    requires Distinct(plan) && AllReversible(plan)
    requires ApplyAll(rows, plan, t1).Success?
    requires t2 != NOW.s
    ensures ApplyAll(ApplyAll(rows, plan, t1).value.0, UndoPlan(plan, t1), t2).Success?
    ensures IsUndone(rows, plan, t1, ApplyAll(ApplyAll(rows, plan, t1).value.0, UndoPlan(plan, t1), t2).value.0)
  {
    var mid := ApplyAll(rows, plan, t1).value.0;
    UndoGoesThrough(rows, plan, t1, t2);
    SequentialIsSimultaneous(rows, plan, t1);
    AppliedHolds(rows, plan, t1);
    UndoPasses(mid, plan, t1);
    SequentialIsSimultaneous(mid, UndoPlan(plan, t1), t2);
    TwoUpdatesUndo(rows, mid, ApplyAll(mid, UndoPlan(plan, t1), t2).value.0, plan, t1, t2);
  }

  /** A change that writes a column it does not test is not undone: marking an answer stale and
      testing only its state leaves stale_at set. Neither the helper most plans are made with
      (StateChangeIsGood) nor the planner of note moves (NoteMovesAndReturns) builds one. */
  lemma UntestedColumnSurvivesUndo(row: Row, c: Change, t1: string, t2: string)
    requires t1 != NOW.s && t2 != NOW.s && c.kind == Answer
    requires row == map[CacheState := Text("active"), StaleAt := Null, StaleReason := Null]
    requires c.before == map[CacheState := Text("active")]
    requires c.after == map[CacheState := Text("stale"), StaleAt := NOW]
    ensures Project(row, c.before.Keys) == c.before
    ensures Lookup(WrittenRow(WrittenRow(row, c, t1), UndoOf(c, t1), t2), StaleAt) == Text(t1)
  {
    assert c.before.Keys == {CacheState};
    assert Materialize(c.after, t1) == map[CacheState := Text("stale"), StaleAt := Text(t1)];
    var mid := WrittenRow(row, c, t1);
    assert mid[StaleAt] == Text(t1);
    assert UndoOf(c, t1).after == c.before;
  }
}
