/** The one thing the operation log leaves out: moderating a claim recalculates the confidence of
    the claim and its relations after the changes were recorded (graph-moderation.ts,
    graph-claim-alignment.ts). Here is exactly when the log is complete all the same. */
module ConfidenceAudit {
  import opened Outcomes
  import opened MutationStore
  import opened MutationLaws
  import opened Undo
  import opened StateChanges
  import opened OperationLog
  import opened OperationHistory

  ghost predicate SameColumns(a: Store, b: Store, columns: set<Column>) {
    a.Keys == b.Keys && forall k | k in a :: Project(a[k], columns) == Project(b[k], columns)
  }

  // ---- replaying leaves the columns no change writes ----

  lemma RowKeepsApart(row: Row, written: Row, apart: set<Column>)
    requires written.Keys !! apart
    ensures (row + written) - apart == (row - apart) + written
    ensures Project(row + written, apart) == Project(row, apart)
  {
  }

  lemma OverwriteKeepsApart(rows: Store, k: Key, written: Row, apart: set<Column>)
    requires written.Keys !! apart
    ensures Without(Overwrite(rows, k, written), apart) == Overwrite(Without(rows, apart), k, written)
    ensures SameColumns(Overwrite(rows, k, written), rows, apart)
  {
    if k in rows {
      RowKeepsApart(rows[k], written, apart);
    }
  }

  ghost predicate WritesApart(recorded: seq<Recorded>, apart: set<Column>) {
    forall i | 0 <= i < |recorded| :: recorded[i].after.Keys !! apart
  }

  lemma {:induction false} ReplayKeepsApart(rows: Store, recorded: seq<Recorded>, apart: set<Column>)
    requires WritesApart(recorded, apart)
    ensures Without(Replay(rows, recorded), apart) == Replay(Without(rows, apart), recorded)
    ensures SameColumns(Replay(rows, recorded), rows, apart)
    decreases |recorded|
  {
    if recorded != [] {
      var init, last := recorded[..|recorded| - 1], recorded[|recorded| - 1];
      ReplayKeepsApart(rows, init, apart);
      OverwriteKeepsApart(Replay(rows, init), KeyOf(last), last.after, apart);
    }
  }

  lemma {:induction false} ReplayLogKeepsApart(rows: Store, log: seq<Operation>, apart: set<Column>)
    requires forall o | 0 <= o < |log| :: WritesApart(log[o].changes, apart)
    ensures Without(ReplayLog(rows, log), apart) == ReplayLog(Without(rows, apart), log)
    ensures SameColumns(ReplayLog(rows, log), rows, apart)
    decreases |log|
  {
    if log != [] {
      var init := log[..|log| - 1];
      ReplayLogKeepsApart(rows, init, apart);
      ReplayKeepsApart(ReplayLog(rows, init), log[|log| - 1].changes, apart);
    }
  }

  // ---- complete exactly when no confidence moved ----

  lemma RowsAgreeIff(a: Row, b: Row)
    ensures a - {UpdatedAt} == b - {UpdatedAt} <==>
            a - UNLOGGED == b - UNLOGGED && Project(a, CONFIDENCE) == Project(b, CONFIDENCE)
  {
    if a - UNLOGGED == b - UNLOGGED && Project(a, CONFIDENCE) == Project(b, CONFIDENCE) {
      forall c | c != UpdatedAt ensures (c in a <==> c in b) && (c in a ==> a[c] == b[c]) {
        assert c in a <==> c in a - UNLOGGED || c in Project(a, CONFIDENCE);
        assert c in b <==> c in b - UNLOGGED || c in Project(b, CONFIDENCE);
      }
    }
    if a - {UpdatedAt} == b - {UpdatedAt} {
      forall c | c != UpdatedAt ensures (c in a <==> c in b) && (c in a ==> a[c] == b[c]) {
        assert c in a <==> c in a - {UpdatedAt};
        assert c in b <==> c in b - {UpdatedAt};
      }
    }
  }

  lemma StoresAgreeIff(a: Store, b: Store)
    ensures Without(a, {UpdatedAt}) == Without(b, {UpdatedAt}) <==> Forget(a) == Forget(b) && SameColumns(a, b, CONFIDENCE)
  {
    assert Forget(a).Keys == a.Keys == Without(a, {UpdatedAt}).Keys;
    assert Forget(b).Keys == b.Keys == Without(b, {UpdatedAt}).Keys;
    forall k | k in a && k in b
      ensures Without(a, {UpdatedAt})[k] == Without(b, {UpdatedAt})[k] <==>
              Forget(a)[k] == Forget(b)[k] && Project(a[k], CONFIDENCE) == Project(b[k], CONFIDENCE)
    {
      RowsAgreeIff(a[k], b[k]);
    }
  }

  /** Columns as they were in the rows, once stripped of updated_at. */
  lemma StrippedKeepsConfidence(rows: Store, replayed: Store)
    requires SameColumns(replayed, Without(rows, {UpdatedAt}), UNLOGGED)
    ensures Without(replayed, {UpdatedAt}) == replayed
    ensures SameColumns(replayed, rows, CONFIDENCE)
  {
    var stripped := Without(rows, {UpdatedAt});
    forall k | k in rows
      ensures replayed[k] - {UpdatedAt} == replayed[k]
      ensures Project(replayed[k], CONFIDENCE) == Project(rows[k], CONFIDENCE)
    {
      var kept, first := Project(replayed[k], UNLOGGED), Project(stripped[k], UNLOGGED);
      assert kept == first;
      assert UpdatedAt !in first && (UpdatedAt in replayed[k] <==> UpdatedAt in kept);
      forall c | c in CONFIDENCE
        ensures (c in replayed[k] <==> c in rows[k]) && (c in rows[k] ==> replayed[k][c] == rows[k][c])
      {
        assert c in replayed[k] <==> c in kept;
        assert c in rows[k] <==> c in first;
      }
    }
  }

  /** Replaying the log from the first rows gives the current ones, in every column but updated_at,
      exactly when every row has the confidence it had at first. */
  lemma AuditIsCompleteIff(run: seq<System>, j: nat)
    requires Run(run) && j < |run|
    ensures ReplayLog(Without(run[0].rows, {UpdatedAt}), run[j].log) == Without(run[j].rows, {UpdatedAt})
            <==> SameColumns(run[0].rows, run[j].rows, CONFIDENCE)
  {
    RunKeepsInv(run, j);
    LogWritesApart(run[j]);
    CompleteIff(run[0].rows, run[j]);
  }

  lemma LogWritesApart(sys: System)
    requires LogGood(sys)
    ensures forall o | 0 <= o < |sys.log| :: WritesApart(sys.log[o].changes, UNLOGGED)
  {
    forall o, i | 0 <= o < |sys.log| && 0 <= i < |sys.log[o].changes|
      ensures sys.log[o].changes[i].after.Keys !! UNLOGGED
    {
      assert RecordHolds(sys.rows, sys.log[o].changes[i]);
      RecordKeepsApart(sys.log[o].changes[i]);
    }
  }

  lemma CompleteIff(first: Store, sys: System)
    requires Audited(first, sys) && forall o | 0 <= o < |sys.log| :: WritesApart(sys.log[o].changes, UNLOGGED)
    ensures ReplayLog(Without(first, {UpdatedAt}), sys.log) == Without(sys.rows, {UpdatedAt})
            <==> SameColumns(first, sys.rows, CONFIDENCE)
  {
    var stripped := Without(first, {UpdatedAt});
    var replayed := ReplayLog(stripped, sys.log);
    ReplayLogKeepsApart(stripped, sys.log, UNLOGGED);
    StrippedKeepsConfidence(first, replayed);
    forall k | k in first ensures stripped[k] - UNLOGGED == first[k] - UNLOGGED {
    }
    assert Without(stripped, UNLOGGED) == Forget(first);
    StoresAgreeIff(replayed, sys.rows);
  }

  // ---- which steps move the confidence ----

  lemma WriteKeepsConfidence(row: Row, c: Change, now: Time)
    requires Good(c)
    ensures Project(WrittenRow(row, c, now), CONFIDENCE) == Project(row, CONFIDENCE)
  {
    SpecFacts(c.kind);
    assert Materialize(c.after, now).Keys == c.after.Keys;
    RowKeepsApart(row, Materialize(c.after, now), CONFIDENCE);
  }

  lemma SimultaneousKeepsConfidence(rows: Store, changes: seq<Change>, now: Time, out: Store)
    requires IsSimultaneous(rows, changes, now, out) && forall c | c in changes :: Good(c)
    ensures SameColumns(rows, out, CONFIDENCE)
  {
    forall k | k in rows ensures Project(rows[k], CONFIDENCE) == Project(out[k], CONFIDENCE) {
      if Touches(changes, k) {
        var c :| c in changes && TargetOf(c) == k;
        WriteKeepsConfidence(rows[k], c, now);
      }
    }
  }

  lemma CommitKeepsConfidence(s: System, t: System, changes: seq<Change>, now: Time, reversible: bool, undoOf: Option<nat>)
    requires Distinct(changes) && AllGood(changes) && Commit(s, changes, now, reversible, undoOf) == Success(t)
    ensures SameColumns(s.rows, t.rows, CONFIDENCE)
  {
    SequentialIsSimultaneous(s.rows, changes, now);
    SimultaneousKeepsConfidence(s.rows, changes, now, t.rows);
  }

  /** The claim and its live relations hold this assessment already. */
  ghost predicate AlreadyAssessed(rows: Store, v: Verdict) {
    forall k | k in rows
      && (k == Key(Claim, [v.claim])
          || (k.kind.Relation? && Lookup(rows[k], ClaimId) == Text(v.claim) && Lookup(rows[k], DeletedAt) == Null)) ::
      Project(rows[k], CONFIDENCE) == map[ConfidenceLevel := Text(v.level), ConfidenceJson := Json(v.json)]
  }

  lemma RecalculationMovesIff(rows: Store, v: Verdict, now: Time)
    ensures SameColumns(rows, Recalculated(rows, v, now), CONFIDENCE) <==> AlreadyAssessed(rows, v)
  {
    var after := Recalculated(rows, v, now);
    forall k | k in rows
      ensures Project(after[k], CONFIDENCE) ==
              if k == ClaimKey(v.claim) || LiveRelationOf(rows, v.claim, k)
              then map[ConfidenceLevel := Text(v.level), ConfidenceJson := Json(v.json)]
              else Project(rows[k], CONFIDENCE)
    {
    }
  }

  lemma SameColumnsChains(a: Store, b: Store, c: Store, columns: set<Column>)
    requires SameColumns(a, b, columns)
    ensures SameColumns(a, c, columns) <==> SameColumns(b, c, columns)
  {
  }

  /** A step moves the confidence of some row exactly when it moderates a claim and the claim or
      one of its live relations held another assessment. */
  lemma StepMovesConfidenceIff(initial: Store, s: System, t: System, step: Step)
    requires Inv(initial, s) && NextStep(s, t, step)
    ensures SameColumns(s.rows, t.rows, CONFIDENCE) <==>
            (step.ModerateWithVerdict? ==>
               AlreadyAssessed(Commit(s, step.changes, step.now, false, None).value.rows, step.verdict))
  {
    match step {
      case Draft(_, _) =>
      case DraftUndo(_, _) =>
      case Close(_, _) =>
      case Apply(id, now) =>
        var plan := s.plans[id];
        assert PlanHolds(s, plan);
        if plan.state.Ready? {
          var mid := Commit(s, plan.changes, now, plan.reversible, plan.undoOf).value;
          CommitKeepsConfidence(s, mid, plan.changes, now, plan.reversible, plan.undoOf);
        }
      case RestoreDeleted(kind, resourceId, ifVersion, now) =>
        var o := LatestDelete(s.log, kind, resourceId).value;
        ReverseIsGood(s.log[o].changes, "");
        CommitKeepsConfidence(s, t, Reverse(s.log[o].changes).value, now, true, Some(o));
      case Moderate(changes, now) =>
        CommitKeepsConfidence(s, t, changes, now, false, None);
      case ModerateWithVerdict(changes, v, now) =>
        var mid := Commit(s, changes, now, false, None).value;
        CommitKeepsConfidence(s, mid, changes, now, false, None);
        RecalculationMovesIff(mid.rows, v, now);
        SameColumnsChains(s.rows, mid.rows, t.rows, CONFIDENCE);
    }
  }

  /** A run in which no step moved the confidence is told by its log in full. */
  lemma {:induction false} QuietRunIsComplete(run: seq<System>, j: nat)
    requires Run(run) && j < |run|
    requires forall i | 0 <= i < j :: SameColumns(run[i].rows, run[i + 1].rows, CONFIDENCE)
    ensures SameColumns(run[0].rows, run[j].rows, CONFIDENCE)
    ensures ReplayLog(Without(run[0].rows, {UpdatedAt}), run[j].log) == Without(run[j].rows, {UpdatedAt})
  {
    if j > 0 {
      QuietRunIsComplete(run, j - 1);
      assert SameColumns(run[j - 1].rows, run[j].rows, CONFIDENCE);
    }
    AuditIsCompleteIff(run, j);
  }

  // ---- a run that is not told in full ----

  /** A claim as extraction leaves it. */
  predicate IsProposed(row: Row) {
    row == map[Status := Text("proposed"), DeletedAt := Null, Version := Num(1),
               ConfidenceLevel := Text("low"), ConfidenceJson := Json("{}"), UpdatedAt := Text("t0")]
  }

  predicate IsConfirmation(c: Change, claim: string) {
    && c.resourceId == claim && c.kind == Claim && c.changeKind == "moderated" && c.selector == [claim]
    && c.before == map[Status := Text("proposed"), Version := Num(1)]
    && c.after == map[Status := Text("user_confirmed"), Version := Num(2)]
  }

  predicate ConfirmsStrongly(v: Verdict) {
    v.confirm && !v.disputed && v.level == "high"
  }

  lemma ConfirmationIsPlanned(row: Row, v: Verdict, c: Change)
    requires IsProposed(row) && ConfirmsStrongly(v) && IsConfirmation(c, v.claim)
    ensures StateChange(Claim, v.claim, [v.claim], Project(row, {Status, Version}), Status, VerdictStatus(v), "moderated", map[])
            == Some(c)
  {
    var selected := Project(row, {Status, Version});
    assert selected == map[Status := Text("proposed"), Version := Num(1)];
    assert Counters(selected) == {Version};
    assert VerdictStatus(v) == Text("user_confirmed");
    var made := StateChange(Claim, v.claim, [v.claim], selected, Status, VerdictStatus(v), "moderated", map[]);
    assert made.value.before == c.before;
    assert made.value.after == c.after;
  }

  lemma ConfirmationIsFresh(rows: Store, row: Row, c: Change, claim: string)
    requires claim != "" && IsConfirmation(c, claim) && rows == map[ClaimKey(claim) := row] && IsProposed(row)
    ensures Fresh(rows, [c]) && AllCheck(rows, [c]) && AllWritable([c])
  {
    assert Status in c.before && Status in c.after;
    assert Project(row, c.before.Keys) == c.before;
    assert TargetOf(c) == ClaimKey(claim);
  }

  /** Confirming a proposed claim whose evidence is assessed better than before: the log holds the
      confirmation, and replaying it leaves the claim its earlier confidence. */
  lemma ConfirmedClaimEscapesTheLog(s: System, row: Row, c: Change, v: Verdict, now: Time) returns (t: System)
    requires IsProposed(row) && ConfirmsStrongly(v) && v.claim != "" && IsConfirmation(c, v.claim)
    requires s == System(map[ClaimKey(v.claim) := row], [], map[])
    ensures NextStep(s, t, ModerateWithVerdict([c], v, now)) && Run([s, t])
    ensures ReplayLog(Without(s.rows, {UpdatedAt}), t.log) != Without(t.rows, {UpdatedAt})
  {
    ConfirmationIsPlanned(row, v, c);
    ConfirmationIsFresh(s.rows, row, c, v.claim);
    t := FreshVerdictGoesThrough(s, [c], v, now);
    assert Linked([s, t], 0) by {
      assert NextStep(s, t, ModerateWithVerdict([c], v, now));
    }
    AuditIsCompleteIff([s, t], 1);
    assert Project(row, CONFIDENCE)[ConfidenceLevel] == Text("low");
    VerdictMoves(s, t, [c], v, now, ClaimKey(v.claim));
  }

  lemma FreshVerdictGoesThrough(s: System, changes: seq<Change>, v: Verdict, now: Time) returns (t: System)
    requires Fresh(s.rows, changes) && PlansVerdict(s.rows, changes, v)
    requires AllCheck(s.rows, changes) && AllWritable(changes)
    ensures NextStep(s, t, ModerateWithVerdict(changes, v, now))
  {
    FirstCheckErrorPasses(s.rows, changes);
    SequentialIsSimultaneous(s.rows, changes, now);
    t := ModerateClaim(s, changes, v, now).value;
  }

  lemma VerdictMoves(s: System, t: System, changes: seq<Change>, v: Verdict, now: Time, k: Key)
    requires Fresh(s.rows, changes) && ModerateClaim(s, changes, v, now) == Success(t)
    requires k == ClaimKey(v.claim) && k in s.rows
    requires ConfidenceLevel in s.rows[k] && s.rows[k][ConfidenceLevel] != Text(v.level)
    ensures !SameColumns(s.rows, t.rows, CONFIDENCE)
  {
    var mid := Commit(s, changes, now, false, None).value;
    CommitKeepsConfidence(s, mid, changes, now, false, None);
    RecalculationMovesIff(mid.rows, v, now);
    SameColumnsChains(s.rows, mid.rows, t.rows, CONFIDENCE);
    assert Project(s.rows[k], CONFIDENCE)[ConfidenceLevel] == s.rows[k][ConfidenceLevel];
  }
}
