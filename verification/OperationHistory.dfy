/** Safety of the Plan/Apply/Undo/Restore protocol over every run: no plan applies to a
    version that has moved on, an operation is undone at most once and can be undone while its
    rows are untouched, and the log tells the whole story forwards and backwards. */
module OperationHistory {
  import opened Outcomes
  import opened MutationStore
  import opened MutationLaws
  import opened Undo
  import opened StateChanges
  import opened OperationLog

  // ---- recorded changes ----

  function SelectorOf(r: Recorded): seq<string> {
    match SelectorFor(r.kind, r.resourceId)
    case Success(selector) => selector
    case Failure(_) => []
  }

  /** A recorded change as the change that would make it again. */
  function AsChange(r: Recorded): Change {
    Change(r.resourceId, r.kind, r.changeKind, SelectorOf(r), r.before, r.after)
  }

  function KeyOf(r: Recorded): Key {
    TargetOf(AsChange(r))
  }

  ghost predicate GoodRecord(r: Recorded) {
    && Good(AsChange(r))
    && SelectorComplete(SpecOf(r.kind).value, SelectorOf(r))
    && NOW !in r.after.Values
  }

  function AsPlan(recorded: seq<Recorded>): (plan: seq<Change>)
    ensures |plan| == |recorded|
    ensures forall i | 0 <= i < |plan| :: plan[i] == AsChange(recorded[i])
  {
    seq(|recorded|, i requires 0 <= i < |recorded| => AsChange(recorded[i]))
  }

  lemma GoodRecordMade(rows: Store, c: Change, now: Time)
    requires Good(c) && Check(rows, c).Pass?
    ensures GoodRecord(RecordOf(c, now)) && KeyOf(RecordOf(c, now)) == TargetOf(c)
    ensures WrittenVersion(AsChange(RecordOf(c, now))) == WrittenVersion(c)
  {
    CheckGives(rows, c);
    assert Materialize(c.after, now).Keys == c.after.Keys;
  }

  // ---- a commit ----

  /** What one successful commit of distinct, good changes does to the rows. */
  ghost predicate Committed(rows: Store, out: Store, changes: seq<Change>, recorded: seq<Recorded>) {
    && out.Keys == rows.Keys
    && |recorded| == |changes|
    && (forall k | k in rows && !Touches(changes, k) :: out[k] == rows[k])
    && (forall i | 0 <= i < |changes| ::
          && GoodRecord(recorded[i]) && KeyOf(recorded[i]) == TargetOf(changes[i]) && TargetOf(changes[i]) in out
          && recorded[i].before == changes[i].before
          && Project(out[TargetOf(changes[i])], recorded[i].after.Keys) == recorded[i].after
          && WrittenVersion(AsChange(recorded[i])) == WrittenVersion(changes[i]))
    && (forall k: Key | VersionColumnOf(k.kind).Some? ::
          VersionAt(out, k) == VersionAt(rows, k) + if Touches(changes, k) then 1 else 0)
    && (forall i | 0 <= i < |changes| && VersionColumnOf(changes[i].kind).Some? ::
          VersionAt(out, TargetOf(changes[i])) == WrittenVersion(changes[i]))
  }

  lemma {:induction false} DistinctWritesOnce(plan: seq<Change>, k: Key)
    requires Distinct(plan)
    ensures WriteCount(plan, k) == if Touches(plan, k) then 1 else 0
    decreases |plan|
  {
    if plan != [] {
      var init, last := plan[..|plan| - 1], plan[|plan| - 1];
      assert plan == init + [last];
      LastTargetIsNew(init, last);
      DistinctWritesOnce(init, k);
      WriteCountPositive(plan, k);
      WriteCountPositive(init, k);
    }
  }

  lemma ChangeCommitted(rows: Store, out: Store, changes: seq<Change>, now: Time, i: nat)
    requires i < |changes| && Good(changes[i]) && Check(rows, changes[i]).Pass?
    requires IsSimultaneous(rows, changes, now, out)
    ensures var c := changes[i];
      && TargetOf(c) in out
      && Project(out[TargetOf(c)], RecordOf(c, now).after.Keys) == RecordOf(c, now).after
      && GoodRecord(RecordOf(c, now)) && KeyOf(RecordOf(c, now)) == TargetOf(c)
      && WrittenVersion(AsChange(RecordOf(c, now))) == WrittenVersion(c)
      && (VersionColumnOf(c.kind).Some? ==> VersionAt(out, TargetOf(c)) == WrittenVersion(c))
  {
    var c := changes[i];
    assert c in changes;
    CheckGives(rows, c);
    GoodRecordMade(rows, c, now);
    WrittenHoldsAfter(rows[TargetOf(c)], c, now);
    assert Materialize(c.after, now).Keys == c.after.Keys;
    if VersionColumnOf(c.kind).Some? {
      var col := VersionColumnOf(c.kind).value;
      assert col in Project(out[TargetOf(c)], RecordOf(c, now).after.Keys);
    }
  }

  lemma CommitCommits(sys: System, changes: seq<Change>, now: Time, reversible: bool, undoOf: Option<nat>)
    requires Distinct(changes) && AllGood(changes)
    requires Commit(sys, changes, now, reversible, undoOf).Success?
    ensures var next := Commit(sys, changes, now, reversible, undoOf).value;
      && |next.log| == |sys.log| + 1 && next.log[..|sys.log|] == sys.log && next.plans == sys.plans
      && next.log[|sys.log|].reversible == reversible && next.log[|sys.log|].undoOf == undoOf
      && ApplyAll(sys.rows, changes, now) == Success((next.rows, next.log[|sys.log|].changes))
      && Committed(sys.rows, next.rows, changes, next.log[|sys.log|].changes)
  {
    var next := Commit(sys, changes, now, reversible, undoOf).value;
    var recorded := next.log[|sys.log|].changes;
    FirstCheckErrorPasses(sys.rows, changes);
    SequentialIsSimultaneous(sys.rows, changes, now);
    forall i | 0 <= i < |changes|
      ensures GoodRecord(recorded[i]) && KeyOf(recorded[i]) == TargetOf(changes[i])
      ensures TargetOf(changes[i]) in next.rows
      ensures Project(next.rows[TargetOf(changes[i])], recorded[i].after.Keys) == recorded[i].after
      ensures WrittenVersion(AsChange(recorded[i])) == WrittenVersion(changes[i])
      ensures VersionColumnOf(changes[i].kind).Some? ==>
                VersionAt(next.rows, TargetOf(changes[i])) == WrittenVersion(changes[i])
    {
      ChangeCommitted(sys.rows, next.rows, changes, now, i);
    }
    forall k: Key | VersionColumnOf(k.kind).Some?
      ensures VersionAt(next.rows, k) == VersionAt(sys.rows, k) + if Touches(changes, k) then 1 else 0
    {
      VersionsCountWrites(sys.rows, changes, now, k);
      DistinctWritesOnce(changes, k);
    }
  }

  // ---- reversing what is recorded ----

  lemma UndoIsGood(r: Recorded, now: string)
    requires GoodRecord(r)
    ensures ReverseOne(r) == Success(UndoOf(AsChange(r), now))
    ensures Good(UndoOf(AsChange(r), now)) && TargetOf(UndoOf(AsChange(r), now)) == KeyOf(r)
    ensures VersionColumnOf(r.kind).Some? ==>
              WrittenVersion(UndoOf(AsChange(r), now)) == WrittenVersion(AsChange(r)) + 1
  {
    assert Materialize(r.after, now) == r.after;
    SpecFacts(r.kind);
    BumpIsWritten(AsChange(r), now);
    assert BumpColumn(r.after) == VersionColumnOf(r.kind);
  }

  lemma {:induction false} ReverseIsGood(recorded: seq<Recorded>, now: string)
    requires forall i | 0 <= i < |recorded| :: GoodRecord(recorded[i])
    requires Distinct(AsPlan(recorded))
    ensures Reverse(recorded) == Success(UndoPlan(AsPlan(recorded), now))
    ensures Distinct(UndoPlan(AsPlan(recorded), now)) && AllGood(UndoPlan(AsPlan(recorded), now))
  {
    var plan := AsPlan(recorded);
    forall i | 0 <= i < |plan|
      ensures ReverseOne(recorded[i]) == Success(UndoOf(plan[i], now))
      ensures Good(UndoPlan(plan, now)[i]) && TargetOf(UndoPlan(plan, now)[i]) == TargetOf(plan[i])
    {
      UndoIsGood(recorded[i], now);
    }
    ReverseIsUndoPlan(plan, recorded, now);
  }

  // ---- the audit trail ----

  /** The columns the recalculation of a claim's confidence moves without logging it. */
  const CONFIDENCE := {ConfidenceLevel, ConfidenceJson}

  /** The columns no change may write. */
  const UNLOGGED := {UpdatedAt} + CONFIDENCE

  function Without(rows: Store, columns: set<Column>): Store {
    map k | k in rows :: rows[k] - columns
  }

  /** The rows without their updated_at stamps and their confidence. */
  function Forget(rows: Store): Store {
    Without(rows, UNLOGGED)
  }

  function Overwrite(rows: Store, k: Key, columns: Row): Store {
    if k in rows then rows[k := rows[k] + columns] else rows
  }

  /** Writing the recorded `after` columns again, oldest first. */
  function Replay(rows: Store, recorded: seq<Recorded>): Store {
    if recorded == [] then rows
    else
      var last := recorded[|recorded| - 1];
      Overwrite(Replay(rows, recorded[..|recorded| - 1]), KeyOf(last), last.after)
  }

  /** Writing the recorded `before` columns back, newest first. */
  function Rewind(rows: Store, recorded: seq<Recorded>): Store {
    if recorded == [] then rows
    else
      var last := recorded[|recorded| - 1];
      Rewind(Overwrite(rows, KeyOf(last), last.before), recorded[..|recorded| - 1])
  }

  function ReplayLog(rows: Store, log: seq<Operation>): Store {
    if log == [] then rows
    else Replay(ReplayLog(rows, log[..|log| - 1]), log[|log| - 1].changes)
  }

  function RewindLog(rows: Store, log: seq<Operation>): Store
    decreases |log|
  {
    if log == [] then rows
    else RewindLog(Rewind(rows, log[|log| - 1].changes), log[..|log| - 1])
  }

  lemma RowReplays(row: Row, c: Change, now: Time)
    requires Good(c) && Project(row, c.before.Keys) == c.before
    ensures (row - UNLOGGED) + Materialize(c.after, now) == WrittenRow(row, c, now) - UNLOGGED
    ensures (WrittenRow(row, c, now) - UNLOGGED) + c.before == row - UNLOGGED
  {
    SpecFacts(c.kind);
    forall col | col in c.before
      ensures col in row && row[col] == c.before[col] && col !in UNLOGGED
    {
      assert col in Project(row, c.before.Keys);
    }
    assert Materialize(c.after, now).Keys == c.before.Keys;
  }

  lemma OneChangeReplays(rows: Store, c: Change, now: Time)
    requires Good(c) && ApplyOne(rows, c, now).Success?
    ensures var (out, r) := ApplyOne(rows, c, now).value;
      && Overwrite(Forget(rows), KeyOf(r), r.after) == Forget(out)
      && Overwrite(Forget(out), KeyOf(r), r.before) == Forget(rows)
  {
    ApplyOneOutcome(rows, c, now);
    CheckGives(rows, c);
    GoodRecordMade(rows, c, now);
    RowReplays(rows[TargetOf(c)], c, now);
  }

  lemma {:induction false} PlanReplays(rows: Store, plan: seq<Change>, now: Time)
    requires AllGood(plan) && ApplyAll(rows, plan, now).Success?
    ensures var (out, recorded) := ApplyAll(rows, plan, now).value;
      && Replay(Forget(rows), recorded) == Forget(out)
      && Rewind(Forget(out), recorded) == Forget(rows)
    decreases |plan|
  {
    if plan != [] {
      var init, last := plan[..|plan| - 1], plan[|plan| - 1];
      PlanReplays(rows, init, now);
      var (mid, recorded) := ApplyAll(rows, init, now).value;
      var (out, r) := ApplyOne(mid, last, now).value;
      OneChangeReplays(mid, last, now);
      assert (recorded + [r])[..|recorded|] == recorded;
    }
  }

  // ---- the invariant ----

  ghost predicate RecordHolds(rows: Store, r: Recorded) {
    && GoodRecord(r) && KeyOf(r) in rows
    && (VersionColumnOf(r.kind).Some? ==> WrittenVersion(AsChange(r)) <= VersionAt(rows, KeyOf(r)))
  }

  ghost predicate LogGood(sys: System) {
    forall o | 0 <= o < |sys.log| ::
      && Distinct(AsPlan(sys.log[o].changes))
      && forall i | 0 <= i < |sys.log[o].changes| :: RecordHolds(sys.rows, sys.log[o].changes[i])
  }

  ghost predicate PlanHolds(sys: System, plan: Plan) {
    && Distinct(plan.changes) && AllGood(plan.changes)
    && (forall i | 0 <= i < |plan.changes| && VersionColumnOf(plan.changes[i].kind).Some? ::
          WrittenVersion(plan.changes[i]) - 1 <= VersionAt(sys.rows, TargetOf(plan.changes[i])))
    && (plan.undoOf.Some? ==>
          plan.undoOf.value < |sys.log| && Reverse(sys.log[plan.undoOf.value].changes) == Success(plan.changes))
  }

  ghost predicate PlansGood(sys: System) {
    forall id | id in sys.plans :: PlanHolds(sys, sys.plans[id])
  }

  /** An undo writes the rows of the operation it undoes, and those have since moved past the
      versions that operation wrote. */
  ghost predicate UndoLinks(sys: System) {
    forall j | 0 <= j < |sys.log| && sys.log[j].undoOf.Some? ::
      && sys.log[j].undoOf.value < j
      && Reverses(sys.log[sys.log[j].undoOf.value].changes, sys.log[j].changes)
      && MovedPast(sys.rows, sys.log[sys.log[j].undoOf.value].changes)
  }

  /** Change by change the same rows, and `b` found what `a` had left. */
  ghost predicate Reverses(a: seq<Recorded>, b: seq<Recorded>) {
    |a| == |b| && forall i | 0 <= i < |a| :: KeyOf(a[i]) == KeyOf(b[i]) && b[i].before == a[i].after
  }

  ghost predicate MovedPast(rows: Store, recorded: seq<Recorded>) {
    forall i | 0 <= i < |recorded| && VersionColumnOf(recorded[i].kind).Some? ::
      VersionAt(rows, KeyOf(recorded[i])) > WrittenVersion(AsChange(recorded[i]))
  }

  ghost predicate WrittenSince(log: seq<Operation>, o: nat, k: Key) {
    exists j :: o < j < |log| && Touches(AsPlan(log[j].changes), k)
  }

  /** A row no later operation wrote still holds what the operation left there. */
  ghost predicate Intact(sys: System) {
    forall o, i | 0 <= o < |sys.log| && 0 <= i < |sys.log[o].changes| ::
      var r := sys.log[o].changes[i];
      !WrittenSince(sys.log, o, KeyOf(r)) ==>
        KeyOf(r) in sys.rows && Project(sys.rows[KeyOf(r)], r.after.Keys) == r.after
  }

  ghost predicate Audited(initial: Store, sys: System) {
    && ReplayLog(Forget(initial), sys.log) == Forget(sys.rows)
    && RewindLog(Forget(sys.rows), sys.log) == Forget(initial)
  }

  ghost predicate Inv(initial: Store, sys: System) {
    LogGood(sys) && PlansGood(sys) && UndoLinks(sys) && Intact(sys) && Audited(initial, sys)
  }

  // ---- each commit keeps the invariant ----

  ghost predicate OneCommit(sys: System, next: System, changes: seq<Change>) {
    && Distinct(changes) && AllGood(changes)
    && |next.log| == |sys.log| + 1 && next.log[..|sys.log|] == sys.log
    && Committed(sys.rows, next.rows, changes, next.log[|sys.log|].changes)
  }

  lemma OldRecordStillHolds(sys: System, next: System, changes: seq<Change>, r: Recorded)
    requires OneCommit(sys, next, changes)
    requires RecordHolds(sys.rows, r)
    ensures RecordHolds(next.rows, r)
  {
  }

  lemma CommitKeepsLogGood(sys: System, next: System, changes: seq<Change>)
    requires LogGood(sys) && OneCommit(sys, next, changes)
    ensures LogGood(next)
  {
    forall o | 0 <= o < |next.log|
      ensures Distinct(AsPlan(next.log[o].changes))
      ensures forall i | 0 <= i < |next.log[o].changes| :: RecordHolds(next.rows, next.log[o].changes[i])
    {
      if o < |sys.log| {
        assert next.log[o] == sys.log[o];
        forall i | 0 <= i < |next.log[o].changes|
          ensures RecordHolds(next.rows, next.log[o].changes[i])
        {
          OldRecordStillHolds(sys, next, changes, sys.log[o].changes[i]);
        }
      }
    }
  }

  lemma CommitKeepsPlan(sys: System, next: System, changes: seq<Change>, plan: Plan)
    requires OneCommit(sys, next, changes) && PlanHolds(sys, plan)
    ensures PlanHolds(next, plan)
  {
    if plan.undoOf.Some? {
      assert next.log[plan.undoOf.value] == sys.log[plan.undoOf.value];
    }
  }

  /** One change of a reversal: the row, what it expects, and the version it writes. */
  lemma {:induction false} ReversalMeans(recorded: seq<Recorded>, changes: seq<Change>, i: nat)
    requires (forall n | 0 <= n < |recorded| :: GoodRecord(recorded[n])) && Distinct(AsPlan(recorded))
    requires Reverse(recorded) == Success(changes) && i < |recorded|
    ensures |changes| == |recorded| && TargetOf(changes[i]) == KeyOf(recorded[i]) && changes[i].before == recorded[i].after
    ensures VersionColumnOf(recorded[i].kind).Some? ==>
              WrittenVersion(changes[i]) == WrittenVersion(AsChange(recorded[i])) + 1
  {
    ReverseIsGood(recorded, "");
    UndoIsGood(recorded[i], "");
    assert changes[i] == UndoOf(AsChange(recorded[i]), "");
    assert Materialize(recorded[i].after, "") == recorded[i].after;
  }

  lemma {:induction false} CommittedReversal(rows: Store, out: Store, recorded: seq<Recorded>, changes: seq<Change>,
                                             latest: seq<Recorded>)
    requires (forall n | 0 <= n < |recorded| :: GoodRecord(recorded[n])) && Distinct(AsPlan(recorded))
    requires Reverse(recorded) == Success(changes) && Committed(rows, out, changes, latest)
    ensures MovedPast(out, recorded) && Reverses(recorded, latest)
  {
    ReverseIsGood(recorded, "");
    forall i | 0 <= i < |recorded|
      ensures KeyOf(recorded[i]) == KeyOf(latest[i]) && latest[i].before == recorded[i].after
      ensures VersionColumnOf(recorded[i].kind).Some? ==>
                VersionAt(out, KeyOf(recorded[i])) > WrittenVersion(AsChange(recorded[i]))
    {
      ReversalMeans(recorded, changes, i);
    }
  }

  lemma ReversalMovesPast(sys: System, next: System, changes: seq<Change>, o: nat)
    requires LogGood(sys) && OneCommit(sys, next, changes)
    requires o < |sys.log| && Reverse(sys.log[o].changes) == Success(changes)
    ensures MovedPast(next.rows, sys.log[o].changes)
    ensures Reverses(sys.log[o].changes, next.log[|sys.log|].changes)
  {
    forall n | 0 <= n < |sys.log[o].changes| ensures GoodRecord(sys.log[o].changes[n]) {
      assert RecordHolds(sys.rows, sys.log[o].changes[n]);
    }
    CommittedReversal(sys.rows, next.rows, sys.log[o].changes, changes, next.log[|sys.log|].changes);
  }

  lemma CommitKeepsUndoLinks(sys: System, next: System, changes: seq<Change>)
    requires LogGood(sys) && UndoLinks(sys) && OneCommit(sys, next, changes)
    requires var undoOf := next.log[|sys.log|].undoOf;
      undoOf.Some? ==> undoOf.value < |sys.log| && Reverse(sys.log[undoOf.value].changes) == Success(changes)
    ensures UndoLinks(next)
  {
    forall j | 0 <= j < |next.log| && next.log[j].undoOf.Some?
      ensures next.log[j].undoOf.value < j
      ensures Reverses(next.log[next.log[j].undoOf.value].changes, next.log[j].changes)
      ensures MovedPast(next.rows, next.log[next.log[j].undoOf.value].changes)
    {
      var o := next.log[j].undoOf.value;
      if j < |sys.log| {
        assert next.log[j] == sys.log[j] && next.log[o] == sys.log[o];
        assert MovedPast(sys.rows, sys.log[o].changes);
      } else {
        assert next.log[o] == sys.log[o];
        ReversalMovesPast(sys, next, changes, o);
      }
    }
  }

  lemma WrittenSinceGrows(sys: System, next: System, changes: seq<Change>, o: nat, k: Key)
    requires o < |sys.log| && OneCommit(sys, next, changes)
    ensures WrittenSince(next.log, o, k) <==> WrittenSince(sys.log, o, k) || Touches(changes, k)
  {
    var latest := next.log[|sys.log|].changes;
    forall j | 0 <= j < |sys.log| ensures next.log[j] == sys.log[j] {
      assert next.log[..|sys.log|][j] == next.log[j];
    }
    if WrittenSince(sys.log, o, k) {
      var j :| o < j < |sys.log| && Touches(AsPlan(sys.log[j].changes), k);
      assert Touches(AsPlan(next.log[j].changes), k);
    }
    assert Touches(changes, k) <==> Touches(AsPlan(latest), k) by {
      SameTargetsTouch(changes, AsPlan(latest), k);
      SameTargetsTouch(AsPlan(latest), changes, k);
    }
  }

  lemma SameTargetsTouch(p: seq<Change>, q: seq<Change>, k: Key)
    requires |p| == |q| && forall i | 0 <= i < |p| :: TargetOf(p[i]) == TargetOf(q[i])
    ensures Touches(p, k) ==> Touches(q, k)
  {
    if Touches(p, k) {
      var c :| c in p && TargetOf(c) == k;
      var i :| 0 <= i < |p| && p[i] == c;
      assert q[i] in q;
    }
  }

  lemma CommitKeepsIntact(sys: System, next: System, changes: seq<Change>)
    requires LogGood(sys) && Intact(sys) && OneCommit(sys, next, changes)
    ensures Intact(next)
  {
    var latest := next.log[|sys.log|].changes;
    forall o, i | 0 <= o < |next.log| && 0 <= i < |next.log[o].changes| &&
        !WrittenSince(next.log, o, KeyOf(next.log[o].changes[i]))
      ensures var r := next.log[o].changes[i];
        KeyOf(r) in next.rows && Project(next.rows[KeyOf(r)], r.after.Keys) == r.after
    {
      var r := next.log[o].changes[i];
      if o < |sys.log| {
        assert next.log[o] == sys.log[o];
        WrittenSinceGrows(sys, next, changes, o, KeyOf(r));
        assert RecordHolds(sys.rows, r);
      } else {
        assert r == latest[i];
      }
    }
  }

  lemma CommitKeepsAudit(initial: Store, sys: System, next: System, changes: seq<Change>, now: Time)
    requires Audited(initial, sys) && OneCommit(sys, next, changes)
    requires ApplyAll(sys.rows, changes, now) == Success((next.rows, next.log[|sys.log|].changes))
    ensures Audited(initial, next)
  {
    PlanReplays(sys.rows, changes, now);
    assert next.log[..|next.log| - 1] == sys.log;
  }

  lemma CommitKeepsInv(initial: Store, sys: System, changes: seq<Change>, now: Time, reversible: bool, undoOf: Option<nat>)
    requires Inv(initial, sys)
    requires Distinct(changes) && AllGood(changes)
    requires undoOf.Some? ==> undoOf.value < |sys.log| && Reverse(sys.log[undoOf.value].changes) == Success(changes)
    requires Commit(sys, changes, now, reversible, undoOf).Success?
    ensures Inv(initial, Commit(sys, changes, now, reversible, undoOf).value)
    ensures OneCommit(sys, Commit(sys, changes, now, reversible, undoOf).value, changes)
  {
    CommitCommits(sys, changes, now, reversible, undoOf);
    var next := Commit(sys, changes, now, reversible, undoOf).value;
    CommitKeepsLogGood(sys, next, changes);
    forall id | id in next.plans
      ensures PlanHolds(next, next.plans[id])
    {
      CommitKeepsPlan(sys, next, changes, sys.plans[id]);
    }
    CommitKeepsUndoLinks(sys, next, changes);
    CommitKeepsIntact(sys, next, changes);
    CommitKeepsAudit(initial, sys, next, changes, now);
  }

  // ---- every step keeps the invariant ----

  /** How the rows, the log and the plans of a state relate to those of any later state. */
  ghost predicate Evolves(s: System, t: System) {
    && t.rows.Keys == s.rows.Keys
    && |s.log| <= |t.log| && t.log[..|s.log|] == s.log
    && (forall k: Key | VersionColumnOf(k.kind).Some? :: VersionAt(s.rows, k) <= VersionAt(t.rows, k))
    && RaisedByLog(s, t) && KeepsPlans(s, t)
  }

  /** Every row an operation logged in between wrote has a higher version. */
  ghost predicate RaisedByLog(s: System, t: System) {
    forall o, k: Key | |s.log| <= o < |t.log| && VersionColumnOf(k.kind).Some? && Touches(AsPlan(t.log[o].changes), k) ::
      VersionAt(s.rows, k) < VersionAt(t.rows, k)
  }

  lemma CommitRaisesVersions(s: System, t: System, changes: seq<Change>, k: Key)
    requires OneCommit(s, t, changes) && VersionColumnOf(k.kind).Some?
    ensures VersionAt(s.rows, k) <= VersionAt(t.rows, k)
    ensures Touches(AsPlan(t.log[|s.log|].changes), k) ==> VersionAt(s.rows, k) < VersionAt(t.rows, k)
  {
    SameTargetsTouch(AsPlan(t.log[|s.log|].changes), changes, k);
  }

  ghost predicate KeepsPlans(s: System, t: System) {
    forall id | id in s.plans ::
      id in t.plans && t.plans[id].changes == s.plans[id].changes && t.plans[id].undoOf == s.plans[id].undoOf
  }

  lemma OneCommitEvolves(s: System, t: System, changes: seq<Change>)
    requires OneCommit(s, t, changes) && KeepsPlans(s, t)
    ensures Evolves(s, t)
  {
    forall k: Key | VersionColumnOf(k.kind).Some?
      ensures VersionAt(s.rows, k) <= VersionAt(t.rows, k)
      ensures Touches(AsPlan(t.log[|s.log|].changes), k) ==> VersionAt(s.rows, k) < VersionAt(t.rows, k)
    {
      CommitRaisesVersions(s, t, changes, k);
    }
    assert t.rows.Keys == s.rows.Keys;
    assert RaisedByLog(s, t);
  }

  lemma FreshPlanHolds(sys: System, plan: Plan)
    requires Fresh(sys.rows, plan.changes) && plan.undoOf.None?
    ensures PlanHolds(sys, plan)
  {
  }

  lemma UndoPlanHolds(sys: System, o: nat)
    requires LogGood(sys) && o < |sys.log| && DescribeUndo(sys, o).Success?
    ensures PlanHolds(sys, DescribeUndo(sys, o).value)
  {
    var recorded := sys.log[o].changes;
    var plan := DescribeUndo(sys, o).value;
    ReverseIsGood(recorded, "");
    forall i | 0 <= i < |plan.changes| && VersionColumnOf(plan.changes[i].kind).Some?
      ensures WrittenVersion(plan.changes[i]) - 1 <= VersionAt(sys.rows, TargetOf(plan.changes[i]))
    {
      UndoIsGood(recorded[i], "");
      assert RecordHolds(sys.rows, recorded[i]);
    }
  }

  lemma PlanStepKeepsInv(initial: Store, s: System, t: System, id: nat)
    requires Inv(initial, s)
    requires id in t.plans && t == s.(plans := s.plans[id := t.plans[id]])
    requires PlanHolds(s, t.plans[id])
    requires id in s.plans ==> t.plans[id].changes == s.plans[id].changes && t.plans[id].undoOf == s.plans[id].undoOf
    ensures Inv(initial, t) && Evolves(s, t)
  {
    forall other | other in t.plans ensures PlanHolds(t, t.plans[other]) {
      assert other != id ==> PlanHolds(s, s.plans[other]);
    }
  }

  lemma CommitStep(initial: Store, s: System, t: System, changes: seq<Change>, now: Time, reversible: bool, undoOf: Option<nat>)
    requires Inv(initial, s) && Commit(s, changes, now, reversible, undoOf) == Success(t)
    requires Distinct(changes) && AllGood(changes)
    requires undoOf.Some? ==> undoOf.value < |s.log| && Reverse(s.log[undoOf.value].changes) == Success(changes)
    ensures Inv(initial, t) && Evolves(s, t)
  {
    CommitKeepsInv(initial, s, changes, now, reversible, undoOf);
    CommitCommits(s, changes, now, reversible, undoOf);
    OneCommitEvolves(s, t, changes);
  }

  lemma ApplyKeepsInv(initial: Store, s: System, t: System, id: nat, now: Time)
    requires Inv(initial, s) && ApplyPlan(s, id, now) == Success(t)
    ensures Inv(initial, t) && Evolves(s, t)
  {
    var plan := s.plans[id];
    if plan.state.Ready? {
      assert PlanHolds(s, plan);
      var mid := Commit(s, plan.changes, now, plan.reversible, plan.undoOf).value;
      CommitStep(initial, s, mid, plan.changes, now, plan.reversible, plan.undoOf);
      PlanStepKeepsInv(initial, mid, t, id);
      EvolvesChains(s, mid, t);
    }
  }

  lemma RestoreKeepsInv(initial: Store, s: System, t: System, kind: Kind, resourceId: string,
                         ifVersion: Option<int>, now: Time)
    requires Inv(initial, s) && Restore(s, kind, resourceId, ifVersion, now) == Success(t)
    ensures Inv(initial, t) && Evolves(s, t)
  {
    var o := LatestDelete(s.log, kind, resourceId).value;
    ReverseIsGood(s.log[o].changes, "");
    var changes := Reverse(s.log[o].changes).value;
    CommitStep(initial, s, t, changes, now, true, Some(o));
  }

  lemma ModerateKeepsInv(initial: Store, s: System, t: System, changes: seq<Change>, now: Time)
    requires Inv(initial, s) && Fresh(s.rows, changes) && Commit(s, changes, now, false, None) == Success(t)
    ensures Inv(initial, t) && Evolves(s, t)
  {
    CommitKeepsInv(initial, s, changes, now, false, None);
    CommitCommits(s, changes, now, false, None);
    OneCommitEvolves(s, t, changes);
  }

  lemma VerdictIsWritten(row: Row, v: Verdict, c: Change, now: Time)
    requires StateChange(Claim, v.claim, [v.claim], row, Status, VerdictStatus(v), "moderated", map[]) == Some(c)
    ensures Status in RecordOf(c, now).after && RecordOf(c, now).after[Status] == VerdictStatus(v)
  {
    assert Status !in Counters(row);
    assert Status in c.after && c.after[Status] == VerdictStatus(v);
  }

  lemma FirstChangeIsWritten(s: System, changes: seq<Change>, now: Time)
    requires Fresh(s.rows, changes) && changes != [] && Commit(s, changes, now, false, None).Success?
    ensures var rows := Commit(s, changes, now, false, None).value.rows;
      var r := RecordOf(changes[0], now);
      TargetOf(changes[0]) in rows && Project(rows[TargetOf(changes[0])], r.after.Keys) == r.after
  {
    FirstCheckErrorPasses(s.rows, changes);
    SequentialIsSimultaneous(s.rows, changes, now);
    ChangeCommitted(s.rows, Commit(s, changes, now, false, None).value.rows, changes, now, 0);
  }

  /** On the claim just moderated the CASE changes nothing: its status is one it passes over. */
  lemma VerdictStands(s: System, changes: seq<Change>, v: Verdict, now: Time)
    requires Fresh(s.rows, changes) && PlansVerdict(s.rows, changes, v)
    requires Commit(s, changes, now, false, None).Success?
    ensures var rows := Commit(s, changes, now, false, None).value.rows;
      && ClaimKey(v.claim) in rows && Status in rows[ClaimKey(v.claim)]
      && rows[ClaimKey(v.claim)][Status] == VerdictStatus(v)
  {
    var k := ClaimKey(v.claim);
    var rows := Commit(s, changes, now, false, None).value.rows;
    var selected := Project(s.rows[k], {Status, Version});
    if StateChange(Claim, v.claim, [v.claim], selected, Status, VerdictStatus(v), "moderated", map[]).Some? {
      VerdictIsWritten(selected, v, changes[0], now);
      FirstChangeIsWritten(s, changes, now);
      assert Status in Project(rows[k], RecordOf(changes[0], now).after.Keys);
    } else {
      CommitCommits(s, changes, now, false, None);
      assert !Touches(changes, k);
      assert Status in selected;
    }
  }

  lemma RowRecalculated(row: Row, v: Verdict, now: Time)
    ensures (row + map[ConfidenceLevel := Text(v.level), ConfidenceJson := Json(v.json), UpdatedAt := Text(now)]) - UNLOGGED
            == row - UNLOGGED
    ensures Status in row && row[Status] == VerdictStatus(v) ==>
              (row + map[ConfidenceLevel := Text(v.level), ConfidenceJson := Json(v.json),
                         Status := CaseStatus(Lookup(row, Status), v.disputed), UpdatedAt := Text(now)]) - UNLOGGED
              == row - UNLOGGED
  {
  }

  /** So the recalculation moves the confidence and the time, and nothing else. */
  lemma RecalculationForgotten(rows: Store, v: Verdict, now: Time)
    requires ClaimKey(v.claim) in rows && Status in rows[ClaimKey(v.claim)]
    requires rows[ClaimKey(v.claim)][Status] == VerdictStatus(v)
    ensures Forget(Recalculated(rows, v, now)) == Forget(rows)
  {
    var after := Recalculated(rows, v, now);
    forall k | k in rows ensures after[k] - UNLOGGED == rows[k] - UNLOGGED {
      RowRecalculated(rows[k], v, now);
    }
  }

  lemma SameButForgotten(a: Store, b: Store, k: Key)
    requires Forget(a) == Forget(b) && k in a
    ensures k in b && a[k] - UNLOGGED == b[k] - UNLOGGED
    ensures VersionAt(a, k) == VersionAt(b, k)
    ensures forall columns: set<Column> | columns !! UNLOGGED :: Project(a[k], columns) == Project(b[k], columns)
  {
    assert Forget(a).Keys == a.Keys && Forget(b).Keys == b.Keys;
    assert Forget(a)[k] == a[k] - UNLOGGED && Forget(b)[k] == b[k] - UNLOGGED;
    forall col | col !in UNLOGGED
      ensures (col in a[k] <==> col in b[k]) && (col in a[k] ==> a[k][col] == b[k][col])
    {
      assert col in a[k] <==> col in a[k] - UNLOGGED;
      assert col in b[k] <==> col in b[k] - UNLOGGED;
    }
  }

  lemma SameVersions(a: Store, b: Store, k: Key)
    requires Forget(a) == Forget(b)
    ensures VersionAt(a, k) == VersionAt(b, k)
  {
    assert Forget(a).Keys == a.Keys && Forget(b).Keys == b.Keys;
    if k in a {
      SameButForgotten(a, b, k);
    }
  }

  lemma RecordKeepsApart(r: Recorded)
    requires GoodRecord(r)
    ensures r.after.Keys !! UNLOGGED
  {
    SpecFacts(r.kind);
  }

  /** Rows that differ in forgotten columns only are as good, for every part of the invariant. */
  lemma ForgottenWriteKeepsInv(initial: Store, s: System, t: System)
    requires Inv(initial, s) && t == s.(rows := t.rows) && Forget(t.rows) == Forget(s.rows)
    ensures Inv(initial, t)
    ensures t.rows.Keys == s.rows.Keys && forall k: Key :: VersionAt(t.rows, k) == VersionAt(s.rows, k)
  {
    assert Forget(t.rows).Keys == t.rows.Keys && Forget(s.rows).Keys == s.rows.Keys;
    forall k: Key ensures VersionAt(t.rows, k) == VersionAt(s.rows, k) {
      SameVersions(t.rows, s.rows, k);
    }
    forall o, i | 0 <= o < |s.log| && 0 <= i < |s.log[o].changes| && !WrittenSince(s.log, o, KeyOf(s.log[o].changes[i]))
      ensures var r := s.log[o].changes[i]; KeyOf(r) in t.rows && Project(t.rows[KeyOf(r)], r.after.Keys) == r.after
    {
      var r := s.log[o].changes[i];
      assert RecordHolds(s.rows, r);
      RecordKeepsApart(r);
      SameButForgotten(s.rows, t.rows, KeyOf(r));
    }
    forall o | 0 <= o < |s.log| ensures forall i | 0 <= i < |s.log[o].changes| :: RecordHolds(t.rows, s.log[o].changes[i]) {
      forall i | 0 <= i < |s.log[o].changes| ensures RecordHolds(t.rows, s.log[o].changes[i]) {
        assert RecordHolds(s.rows, s.log[o].changes[i]);
      }
    }
    forall id | id in s.plans ensures PlanHolds(t, s.plans[id]) {
      assert PlanHolds(s, s.plans[id]);
    }
    forall j | 0 <= j < |s.log| && s.log[j].undoOf.Some? ensures MovedPast(t.rows, s.log[s.log[j].undoOf.value].changes) {
      assert MovedPast(s.rows, s.log[s.log[j].undoOf.value].changes);
    }
  }

  lemma VerdictKeepsInv(initial: Store, s: System, t: System, changes: seq<Change>, v: Verdict, now: Time)
    requires Inv(initial, s) && Fresh(s.rows, changes) && PlansVerdict(s.rows, changes, v)
    requires ModerateClaim(s, changes, v, now) == Success(t)
    ensures Inv(initial, t) && Evolves(s, t)
  {
    var mid := Commit(s, changes, now, false, None).value;
    ModerateKeepsInv(initial, s, mid, changes, now);
    VerdictStands(s, changes, v, now);
    RecalculationForgotten(mid.rows, v, now);
    ForgottenWriteKeepsInv(initial, mid, t);
    EvolvesAlike(s, mid, t);
  }

  lemma EvolvesAlike(s: System, mid: System, t: System)
    requires Evolves(s, mid) && mid.log == t.log && mid.plans == t.plans && mid.rows.Keys == t.rows.Keys
    requires forall k: Key :: VersionAt(t.rows, k) == VersionAt(mid.rows, k)
    ensures Evolves(s, t)
  {
  }

  lemma StepKeepsInv(initial: Store, s: System, t: System)
    requires Inv(initial, s) && Next(s, t)
    ensures Inv(initial, t) && Evolves(s, t)
  {
    var step :| NextStep(s, t, step);
    match step {
      case Draft(id, plan) =>
        FreshPlanHolds(s, plan);
        PlanStepKeepsInv(initial, s, t, id);
      case DraftUndo(id, o) =>
        UndoPlanHolds(s, o);
        PlanStepKeepsInv(initial, s, t, id);
      case Close(id, state) =>
        assert PlanHolds(s, s.plans[id]);
        PlanStepKeepsInv(initial, s, t, id);
      case Apply(id, now) => ApplyKeepsInv(initial, s, t, id, now);
      case RestoreDeleted(kind, resourceId, ifVersion, now) =>
        RestoreKeepsInv(initial, s, t, kind, resourceId, ifVersion, now);
      case Moderate(changes, now) => ModerateKeepsInv(initial, s, t, changes, now);
      case ModerateWithVerdict(changes, v, now) => VerdictKeepsInv(initial, s, t, changes, v, now);
    }
  }

  lemma EvolvesChains(s: System, t: System, u: System)
    requires Evolves(s, t) && Evolves(t, u)
    ensures Evolves(s, u)
  {
    assert u.log[..|s.log|] == u.log[..|t.log|][..|s.log|];
    forall o, k: Key | |s.log| <= o < |u.log| && VersionColumnOf(k.kind).Some? && Touches(AsPlan(u.log[o].changes), k)
      ensures VersionAt(s.rows, k) < VersionAt(u.rows, k)
    {
      if o < |t.log| {
        assert u.log[o] == u.log[..|t.log|][o] == t.log[o];
      }
    }
  }

  lemma RunLinks(run: seq<System>, i: nat)
    requires Run(run) && i < |run| - 1
    ensures Next(run[i], run[i + 1])
  {
    assert Linked(run, i);
  }

  lemma FirstIsSound(run: seq<System>)
    requires Run(run)
    ensures Inv(run[0].rows, run[0])
  {
  }

  lemma RunStepKeepsInv(run: seq<System>, i: nat)
    requires Run(run) && i < |run| - 1 && Inv(run[0].rows, run[i])
    ensures Inv(run[0].rows, run[i + 1]) && Evolves(run[i], run[i + 1])
  {
    RunLinks(run, i);
    StepKeepsInv(run[0].rows, run[i], run[i + 1]);
  }

  lemma {:induction false} RunKeepsInv(run: seq<System>, j: nat)
    requires Run(run) && j < |run|
    ensures Inv(run[0].rows, run[j])
  {
    if j == 0 {
      FirstIsSound(run);
    } else {
      RunKeepsInv(run, j - 1);
      RunStepKeepsInv(run, j - 1);
    }
  }

  lemma RunStepEvolves(run: seq<System>, j: nat)
    requires Run(run) && 0 < j < |run|
    ensures Evolves(run[j - 1], run[j])
  {
    RunKeepsInv(run, j - 1);
    RunStepKeepsInv(run, j - 1);
  }

  lemma {:induction false} RunEvolves(run: seq<System>, i: nat, j: nat)
    requires Run(run) && i <= j < |run|
    ensures Evolves(run[i], run[j])
    decreases j - i
  {
    if i < j {
      RunEvolves(run, i, j - 1);
      RunStepEvolves(run, j);
      EvolvesChains(run[i], run[j - 1], run[j]);
    }
  }

  // ---- main results over runs ----

  /** No ABA: once any versioned target of a plan has been written after the plan was made,
      the plan is refused in every later state, whatever happened in between. */
  lemma PlanNeverAppliesAfterWrite(run: seq<System>, i: nat, j: nat, id: nat, n: nat, o: nat, now: Time)
    requires Run(run) && i <= j < |run|
    requires id in run[i].plans && n < |run[i].plans[id].changes|
    requires VersionColumnOf(run[i].plans[id].changes[n].kind).Some?
    requires |run[i].log| <= o < |run[j].log|
    requires Touches(AsPlan(run[j].log[o].changes), TargetOf(run[i].plans[id].changes[n]))
    ensures id in run[j].plans && run[j].plans[id].changes == run[i].plans[id].changes
    ensures FirstCheckError(run[j].rows, run[j].plans[id].changes).Fail?
    ensures run[j].plans[id].state.Ready? ==> ApplyPlan(run[j], id, now).Failure?
  {
    RunKeepsInv(run, i);
    RunEvolves(run, i, j);
    assert PlanHolds(run[i], run[i].plans[id]);
    StalePlanRefused(run[j].rows, run[j].plans[id].changes, n);
  }

  ghost predicate HasVersionedChange(op: Operation) {
    exists i :: 0 <= i < |op.changes| && VersionColumnOf(op.changes[i].kind).Some?
  }

  lemma SecondUndoRefused(sys: System, o: nat, j: nat)
    requires LogGood(sys) && UndoLinks(sys)
    requires j < |sys.log| && sys.log[j].undoOf == Some(o) && HasVersionedChange(sys.log[o])
    ensures Reverse(sys.log[o].changes).Success?
    ensures FirstCheckError(sys.rows, Reverse(sys.log[o].changes).value).Fail?
  {
    var recorded := sys.log[o].changes;
    ReverseIsGood(recorded, "");
    var i :| 0 <= i < |recorded| && VersionColumnOf(recorded[i].kind).Some?;
    UndoIsGood(recorded[i], "");
    StalePlanRefused(sys.rows, Reverse(recorded).value, i);
  }

  ghost predicate UndoneOnce(log: seq<Operation>) {
    forall a, b | 0 <= a < b < |log| && log[a].undoOf.Some? && log[a].undoOf == log[b].undoOf ::
      log[a].undoOf.value < |log| && !HasVersionedChange(log[log[a].undoOf.value])
  }

  /** A new log entry with an undo link was committed from the reversal of what it undoes. */
  ghost predicate LoggedReversal(s: System, t: System) {
    && |t.log| <= |s.log| + 1
    && (|t.log| == |s.log| + 1 && t.log[|s.log|].undoOf.Some? ==>
          var o := t.log[|s.log|].undoOf.value;
          && o < |s.log| && Reverse(s.log[o].changes).Success?
          && FirstCheckError(s.rows, Reverse(s.log[o].changes).value).Pass?)
  }

  lemma ApplyLogsReversal(s: System, t: System, id: nat, now: Time)
    requires PlansGood(s) && ApplyPlan(s, id, now) == Success(t)
    ensures LoggedReversal(s, t)
  {
    assert PlanHolds(s, s.plans[id]);
  }

  lemma RestoreLogsReversal(s: System, t: System, kind: Kind, resourceId: string, ifVersion: Option<int>, now: Time)
    requires Restore(s, kind, resourceId, ifVersion, now) == Success(t)
    ensures LoggedReversal(s, t)
  {
  }

  lemma StepUndoIsReversal(s: System, t: System)
    requires PlansGood(s) && Next(s, t)
    ensures LoggedReversal(s, t)
  {
    var step :| NextStep(s, t, step);
    match step {
      case Draft(_, _) =>
      case DraftUndo(_, _) =>
      case Close(_, _) =>
      case Apply(id, now) => ApplyLogsReversal(s, t, id, now);
      case RestoreDeleted(kind, resourceId, ifVersion, now) =>
        RestoreLogsReversal(s, t, kind, resourceId, ifVersion, now);
      case Moderate(_, _) =>
      case ModerateWithVerdict(_, _, _) =>
    }
  }

  lemma StepKeepsUndoneOnce(s: System, t: System)
    requires LogGood(s) && UndoLinks(s) && UndoneOnce(s.log)
    requires LoggedReversal(s, t) && |s.log| <= |t.log| && t.log[..|s.log|] == s.log
    ensures UndoneOnce(t.log)
  {
    forall o | 0 <= o < |s.log| ensures t.log[o] == s.log[o] {
      assert t.log[..|s.log|][o] == s.log[o];
    }
    forall a, b | 0 <= a < b < |t.log| && t.log[a].undoOf.Some? && t.log[a].undoOf == t.log[b].undoOf
      ensures t.log[a].undoOf.value < |t.log| && !HasVersionedChange(t.log[t.log[a].undoOf.value])
    {
      var o := t.log[a].undoOf.value;
      assert s.log[a].undoOf == Some(o) && o < a;
      if b == |s.log| && HasVersionedChange(s.log[o]) {
        SecondUndoRefused(s, o, a);
      }
    }
  }

  lemma OneStepUndoesOnce(initial: Store, s: System, t: System)
    requires Inv(initial, s) && Next(s, t) && UndoneOnce(s.log)
    ensures UndoneOnce(t.log)
  {
    StepKeepsInv(initial, s, t);
    StepUndoIsReversal(s, t);
    StepKeepsUndoneOnce(s, t);
  }

  lemma RunStepUndoesOnce(run: seq<System>, i: nat)
    requires Run(run) && i < |run| - 1 && UndoneOnce(run[i].log)
    ensures UndoneOnce(run[i + 1].log)
  {
    RunKeepsInv(run, i);
    RunLinks(run, i);
    OneStepUndoesOnce(run[0].rows, run[i], run[i + 1]);
  }

  lemma {:induction false} RunUndoesOnce(run: seq<System>, j: nat)
    requires Run(run) && j < |run|
    ensures UndoneOnce(run[j].log)
  {
    if j > 0 {
      RunUndoesOnce(run, j - 1);
      RunStepUndoesOnce(run, j - 1);
    }
  }

  /** Of all the undos and restores of one operation, at most one is ever in the log. */
  lemma OperationUndoneAtMostOnce(run: seq<System>, j: nat, o: nat, a: nat, b: nat)
    requires Run(run) && j < |run|
    requires o < |run[j].log| && HasVersionedChange(run[j].log[o])
    requires a < |run[j].log| && b < |run[j].log|
    requires run[j].log[a].undoOf == Some(o) && run[j].log[b].undoOf == Some(o)
    ensures a == b
  {
    RunUndoesOnce(run, j);
  }

  /** An operation after `a` and before `b` wrote the row. */
  ghost predicate WrittenBetween(log: seq<Operation>, a: nat, b: nat, k: Key) {
    exists j :: a < j < b && j < |log| && Touches(AsPlan(log[j].changes), k)
  }

  /** Two undos of one operation: whatever the first one gave back was written again before the second. */
  ghost predicate RedoneBetween(log: seq<Operation>) {
    forall a, b, i | 0 <= a < b < |log| && log[a].undoOf.Some? && log[a].undoOf == log[b].undoOf
                     && 0 <= i < |log[a].changes| && log[a].changes[i].before != log[a].changes[i].after ::
      WrittenBetween(log, a, b, KeyOf(log[a].changes[i]))
  }

  /** Where nothing was written since the first undo, a second finds the row as the first left it, which
      is not what the operation left. */
  lemma {:induction false} SecondUndoNeedsRewrite(sys: System, a: nat, o: nat, i: nat)
    requires LogGood(sys) && UndoLinks(sys) && Intact(sys)
    requires a < |sys.log| && sys.log[a].undoOf == Some(o) && i < |sys.log[a].changes|
    requires sys.log[a].changes[i].before != sys.log[a].changes[i].after
    requires Reverse(sys.log[o].changes).Success? && FirstCheckError(sys.rows, Reverse(sys.log[o].changes).value).Pass?
    ensures WrittenSince(sys.log, a, KeyOf(sys.log[a].changes[i]))
  {
    var recorded, undone := sys.log[o].changes, sys.log[a].changes;
    var changes := Reverse(recorded).value;
    forall n | 0 <= n < |recorded| ensures GoodRecord(recorded[n]) {
      assert RecordHolds(sys.rows, recorded[n]);
    }
    assert RecordHolds(sys.rows, undone[i]);
    ReversalMeans(recorded, changes, i);
    FirstCheckErrorPasses(sys.rows, changes);
    UndoIsGood(recorded[i], "");
    assert changes[i].kind == recorded[i].kind;
    CheckGives(sys.rows, changes[i]);
    assert undone[i].before.Keys == undone[i].after.Keys;
  }

  lemma {:induction false} WrittenBetweenGrows(log: seq<Operation>, longer: seq<Operation>, a: nat, b: nat, k: Key)
    requires |log| <= |longer| && longer[..|log|] == log && b <= |log| && WrittenBetween(log, a, b, k)
    ensures WrittenBetween(longer, a, b, k)
  {
    var j :| a < j < b && j < |log| && Touches(AsPlan(log[j].changes), k);
    assert longer[..|log|][j] == longer[j];
  }

  lemma {:induction false} EarlierPairRedone(log: seq<Operation>, longer: seq<Operation>, a: nat, b: nat, i: nat)
    requires RedoneBetween(log) && |log| <= |longer| && longer[..|log|] == log
    requires a < b < |log| && longer[a].undoOf.Some? && longer[a].undoOf == longer[b].undoOf
    requires i < |longer[a].changes| && longer[a].changes[i].before != longer[a].changes[i].after
    ensures WrittenBetween(longer, a, b, KeyOf(longer[a].changes[i]))
  {
    assert longer[..|log|][a] == log[a] && longer[..|log|][b] == log[b];
    WrittenBetweenGrows(log, longer, a, b, KeyOf(log[a].changes[i]));
  }

  lemma {:induction false} NewPairRedone(s: System, longer: seq<Operation>, a: nat, o: nat, i: nat)
    requires LogGood(s) && UndoLinks(s) && Intact(s)
    requires |longer| == |s.log| + 1 && longer[..|s.log|] == s.log
    requires a < |s.log| && longer[a] == s.log[a] && s.log[a].undoOf == Some(o)
    requires i < |s.log[a].changes| && s.log[a].changes[i].before != s.log[a].changes[i].after
    requires Reverse(s.log[o].changes).Success? && FirstCheckError(s.rows, Reverse(s.log[o].changes).value).Pass?
    ensures WrittenBetween(longer, a, |s.log|, KeyOf(s.log[a].changes[i]))
  {
    SecondUndoNeedsRewrite(s, a, o, i);
    SinceIsBetween(s.log, a, KeyOf(s.log[a].changes[i]));
    WrittenBetweenGrows(s.log, longer, a, |s.log|, KeyOf(s.log[a].changes[i]));
  }

  lemma SinceIsBetween(log: seq<Operation>, a: nat, k: Key)
    requires WrittenSince(log, a, k)
    ensures WrittenBetween(log, a, |log|, k)
  {
  }

  /** The newest entry, against the earlier undos of what it undoes. */
  ghost predicate NewestRedone(log: seq<Operation>, b: nat)
    requires b < |log|
  {
    forall a, i | 0 <= a < b && log[a].undoOf.Some? && log[a].undoOf == log[b].undoOf
                  && 0 <= i < |log[a].changes| && log[a].changes[i].before != log[a].changes[i].after ::
      WrittenBetween(log, a, b, KeyOf(log[a].changes[i]))
  }

  lemma {:induction false} NewestIsRedone(s: System, longer: seq<Operation>, o: nat)
    requires LogGood(s) && UndoLinks(s) && Intact(s)
    requires |longer| == |s.log| + 1 && longer[..|s.log|] == s.log && longer[|s.log|].undoOf == Some(o) && o < |s.log|
    requires Reverse(s.log[o].changes).Success? && FirstCheckError(s.rows, Reverse(s.log[o].changes).value).Pass?
    ensures NewestRedone(longer, |s.log|)
  {
    forall a, i | 0 <= a < |s.log| && longer[a].undoOf == Some(o)
                  && 0 <= i < |longer[a].changes| && longer[a].changes[i].before != longer[a].changes[i].after
      ensures WrittenBetween(longer, a, |s.log|, KeyOf(longer[a].changes[i]))
    {
      assert longer[..|s.log|][a] == longer[a];
      NewPairRedone(s, longer, a, o, i);
    }
  }

  lemma {:induction false} LongerLogRedone(log: seq<Operation>, longer: seq<Operation>)
    requires RedoneBetween(log) && |longer| == |log| + 1 && longer[..|log|] == log
    requires longer[|log|].undoOf.Some? ==> NewestRedone(longer, |log|)
    ensures RedoneBetween(longer)
  {
    forall a, b, i | 0 <= a < b < |longer| && longer[a].undoOf.Some? && longer[a].undoOf == longer[b].undoOf
                     && 0 <= i < |longer[a].changes| && longer[a].changes[i].before != longer[a].changes[i].after
      ensures WrittenBetween(longer, a, b, KeyOf(longer[a].changes[i]))
    {
      if b < |log| {
        EarlierPairRedone(log, longer, a, b, i);
      }
    }
  }

  lemma {:induction false} StepKeepsRedone(s: System, t: System)
    requires LogGood(s) && UndoLinks(s) && Intact(s) && RedoneBetween(s.log)
    requires LoggedReversal(s, t) && |s.log| <= |t.log| && t.log[..|s.log|] == s.log
    ensures RedoneBetween(t.log)
  {
    if |t.log| == |s.log| {
      assert t.log == t.log[..|s.log|];
    } else {
      if t.log[|s.log|].undoOf.Some? {
        NewestIsRedone(s, t.log, t.log[|s.log|].undoOf.value);
      }
      LongerLogRedone(s.log, t.log);
    }
  }

  lemma RunStepRedone(run: seq<System>, i: nat)
    requires Run(run) && i < |run| - 1 && RedoneBetween(run[i].log)
    ensures RedoneBetween(run[i + 1].log)
  {
    RunKeepsInv(run, i);
    RunStepKeepsInv(run, i);
    RunLinks(run, i);
    StepUndoIsReversal(run[i], run[i + 1]);
    StepKeepsRedone(run[i], run[i + 1]);
  }

  /** Of operations without a version: two undos of one operation can both be logged, but only if every
      row the first one changed was written again in between. */
  lemma {:induction false} RepeatedUndoNeedsRewrite(run: seq<System>, j: nat)
    requires Run(run) && j < |run|
    ensures RedoneBetween(run[j].log)
  {
    if j > 0 {
      RepeatedUndoNeedsRewrite(run, j - 1);
      RunStepRedone(run, j - 1);
    }
  }

  /** A reversible operation whose rows no later operation wrote has not been undone, and
      its undo can be planned and goes through. */
  lemma UntouchedOperationCanBeUndone(run: seq<System>, j: nat, o: nat, now: Time)
    requires Run(run) && j < |run| && o < |run[j].log|
    requires run[j].log[o].reversible && run[j].log[o].changes != []
    requires forall i | 0 <= i < |run[j].log[o].changes| ::
               !WrittenSince(run[j].log, o, KeyOf(run[j].log[o].changes[i]))
    ensures DescribeUndo(run[j], o).Success?
    ensures Commit(run[j], DescribeUndo(run[j], o).value.changes, now, false, Some(o)).Success?
  {
    RunKeepsInv(run, j);
    if Undone(run[j].log, o) {
      UndoneRowsAreWritten(run[j], o);
    }
    ReverseIsGood(run[j].log[o].changes, now);
    IntactChangesPass(run[j], o, now);
    SequentialIsSimultaneous(run[j].rows, UndoPlan(AsPlan(run[j].log[o].changes), now), now);
  }

  lemma IntactChangesPass(sys: System, o: nat, now: Time)
    requires LogGood(sys) && Intact(sys) && o < |sys.log|
    requires forall i | 0 <= i < |sys.log[o].changes| :: !WrittenSince(sys.log, o, KeyOf(sys.log[o].changes[i]))
    ensures var undo := UndoPlan(AsPlan(sys.log[o].changes), now);
      && Distinct(undo) && AllCheck(sys.rows, undo) && AllWritable(undo)
      && FirstCheckError(sys.rows, undo).Pass?
  {
    var recorded := sys.log[o].changes;
    var plan := AsPlan(recorded);
    forall i | 0 <= i < |plan|
      ensures Columnar(plan[i]) && Addressed(plan[i])
      ensures SelectorComplete(SpecOf(plan[i].kind).value, plan[i].selector)
      ensures TargetOf(plan[i]) in sys.rows
      ensures Project(sys.rows[TargetOf(plan[i])], plan[i].after.Keys) == Materialize(plan[i].after, now)
    {
      assert RecordHolds(sys.rows, recorded[i]);
      assert Materialize(recorded[i].after, now) == recorded[i].after;
    }
    UndoPasses(sys.rows, plan, now);
    FirstCheckErrorPasses(sys.rows, UndoPlan(plan, now));
  }

  lemma UndoneRowsAreWritten(sys: System, o: nat)
    requires UndoLinks(sys) && o < |sys.log| && sys.log[o].changes != [] && Undone(sys.log, o)
    ensures WrittenSince(sys.log, o, KeyOf(sys.log[o].changes[0]))
  {
    var j :| 0 <= j < |sys.log| && sys.log[j].undoOf == Some(o);
    var plan := AsPlan(sys.log[j].changes);
    assert plan[0] in plan && TargetOf(plan[0]) == KeyOf(sys.log[o].changes[0]);
    assert Touches(plan, KeyOf(sys.log[o].changes[0]));
  }

  /** The log is complete: replaying it from the first rows gives the current rows, and
      rewinding it from the current rows gives the first, up to updated_at. */
  lemma AuditLogIsComplete(run: seq<System>, j: nat)
    requires Run(run) && j < |run|
    ensures ReplayLog(Forget(run[0].rows), run[j].log) == Forget(run[j].rows)
    ensures RewindLog(Forget(run[j].rows), run[j].log) == Forget(run[0].rows)
  {
    RunKeepsInv(run, j);
  }

  /** Undoing what a planner planned gives back every column but updated_at and the version,
      which has moved on by two. */
  lemma PlannedChangesUndo(rows: Store, plan: seq<Change>, t1: Time, t2: Time, i: nat)
    requires Distinct(plan) && AllGood(plan)
    requires ApplyAll(rows, plan, t1).Success?
    requires i < |plan| && NOW !in plan[i].before.Values
    ensures var mid := ApplyAll(rows, plan, t1).value.0;
      && ApplyAll(mid, UndoPlan(plan, t1), t2).Success?
      && var last := ApplyAll(mid, UndoPlan(plan, t1), t2).value.0;
      && TargetOf(plan[i]) in rows && TargetOf(plan[i]) in last
      && SameExcept(rows[TargetOf(plan[i])], last[TargetOf(plan[i])], VersionColumnOf(plan[i].kind))
      && (VersionColumnOf(plan[i].kind).Some? ==>
            VersionAt(last, TargetOf(plan[i])) == VersionAt(rows, TargetOf(plan[i])) + 2)
  {
    var c := plan[i];
    UndoInverts(rows, plan, t1, t2);
    var last := ApplyAll(ApplyAll(rows, plan, t1).value.0, UndoPlan(plan, t1), t2).value.0;
    assert c in plan;
    SequentialIsSimultaneous(rows, plan, t1);
    PlannedChangeIsFaithful(rows, c, t1);
    assert UndoneRow(rows[TargetOf(c)], last[TargetOf(c)], c, t1);
  }

  lemma PlannedChangeIsFaithful(rows: Store, c: Change, now: Time)
    requires Good(c) && Check(rows, c).Pass? && NOW !in c.before.Values
    ensures BumpColumn(Materialize(c.after, now)) == VersionColumnOf(c.kind)
    ensures UndoFaithful(rows[TargetOf(c)], c, now)
    ensures VersionColumnOf(c.kind).Some? ==>
              CurrentVersion(Materialize(c.after, now)) == Some(VersionAt(rows, TargetOf(c)) + 1)
  {
    SpecFacts(c.kind);
    BumpIsWritten(c, now);
    assert Materialize(c.after, now).Keys == c.after.Keys == c.before.Keys;
    if VersionColumnOf(c.kind).Some? {
      PassingShowsVersion(rows, c);
      var col := VersionColumnOf(c.kind).value;
      assert Materialize(c.after, now)[col] == c.after[col];
    }
  }
}
