/** What a plan whose changes have distinct targets does, and what undoing it does. */
module MutationLaws {
  import opened Outcomes
  import opened MutationStore

  ghost predicate Distinct(plan: seq<Change>) {
    forall i, j | 0 <= i < j < |plan| :: TargetOf(plan[i]) != TargetOf(plan[j])
  }

  predicate Writable(c: Change) {
    SpecOf(c.kind).Some? && CheckWrite(c).Pass?
  }

  ghost predicate AllWritable(plan: seq<Change>) {
    forall i | 0 <= i < |plan| :: Writable(plan[i])
  }

  ghost predicate Touches(plan: seq<Change>, k: Key) {
    exists c :: c in plan && TargetOf(c) == k
  }

  /** `out` is `rows` with every change of the plan made at once. */
  ghost predicate IsSimultaneous(rows: Store, plan: seq<Change>, now: string, out: Store) {
    && out.Keys == rows.Keys
    && (forall c | c in plan ::
          SpecOf(c.kind).Some? && TargetOf(c) in rows && out[TargetOf(c)] == WrittenRow(rows[TargetOf(c)], c, now))
    && (forall k | k in rows && !Touches(plan, k) :: out[k] == rows[k])
  }

  /** A change of another row does not disturb a precondition. */
  lemma OtherTargetsKeepCheck(rows: Store, out: Store, plan: seq<Change>, now: string, c: Change)
    requires IsSimultaneous(rows, plan, now, out)
    requires !Touches(plan, TargetOf(c))
    ensures Check(out, c) == Check(rows, c)
  {
  }

  /** One more change at the end of a distinct plan. */
  lemma ExtendSimultaneous(rows: Store, plan: seq<Change>, now: string, mid: Store, c: Change)
    requires IsSimultaneous(rows, plan, now, mid)
    requires !Touches(plan, TargetOf(c))
    requires SpecOf(c.kind).Some? && TargetOf(c) in rows
    ensures TargetOf(c) in mid
    ensures IsSimultaneous(rows, plan + [c], now, mid[TargetOf(c) := WrittenRow(mid[TargetOf(c)], c, now)])
  {
    var key := TargetOf(c);
    var out := mid[key := WrittenRow(mid[key], c, now)];
    assert out.Keys == rows.Keys;
    forall d | d in plan + [c]
      ensures SpecOf(d.kind).Some? && TargetOf(d) in rows
      ensures out[TargetOf(d)] == WrittenRow(rows[TargetOf(d)], d, now)
    {
      if d in plan {
        assert TargetOf(d) != key;
      }
    }
    forall k | k in rows && !Touches(plan + [c], k)
      ensures out[k] == rows[k]
    {
      assert c in plan + [c];
      assert forall d :: d in plan ==> d in plan + [c];
      assert !Touches(plan, k);
    }
  }

  lemma ApplyOneOutcome(rows: Store, c: Change, now: string)
    ensures ApplyOne(rows, c, now).Success? <==> Check(rows, c).Pass? && Writable(c)
    ensures ApplyOne(rows, c, now).Success? ==>
      && SpecOf(c.kind).Some? && TargetOf(c) in rows
      && ApplyOne(rows, c, now).value
         == (rows[TargetOf(c) := WrittenRow(rows[TargetOf(c)], c, now)], RecordOf(c, now))
  {
  }

  lemma LastTargetIsNew(init: seq<Change>, last: Change)
    requires Distinct(init + [last])
    ensures Distinct(init) && !Touches(init, TargetOf(last))
  {
    var plan := init + [last];
    assert forall i | 0 <= i < |init| :: init[i] == plan[i];
    forall i | 0 <= i < |init|
      ensures TargetOf(init[i]) != TargetOf(last)
    {
      assert init[i] == plan[i] && plan[|init|] == last;
    }
  }

  lemma ChecksSplit(rows: Store, init: seq<Change>, last: Change)
    ensures AllCheck(rows, init + [last]) <==> AllCheck(rows, init) && Check(rows, last).Pass?
    ensures AllWritable(init + [last]) <==> AllWritable(init) && Writable(last)
  {
    var plan := init + [last];
    assert forall i | 0 <= i < |init| :: init[i] == plan[i];
    assert plan[|init|] == last;
  }

  /** For distinct targets, applying in sequence succeeds exactly when every precondition
      holds beforehand and every write is permitted, and then it is one simultaneous update.
      In particular a passing verifyMutationChanges makes every later recheck pass. */
  lemma {:induction false} SequentialIsSimultaneous(rows: Store, plan: seq<Change>, now: string)
    requires Distinct(plan)
    ensures ApplyAll(rows, plan, now).Success? <==> AllCheck(rows, plan) && AllWritable(plan)
    ensures ApplyAll(rows, plan, now).Success? ==>
      var (out, recorded) := ApplyAll(rows, plan, now).value;
      && IsSimultaneous(rows, plan, now, out)
      && |recorded| == |plan|
      && forall i | 0 <= i < |plan| :: recorded[i] == RecordOf(plan[i], now)
    decreases |plan|
  {
    if plan != [] {
      var init, last := plan[..|plan| - 1], plan[|plan| - 1];
      assert plan == init + [last];
      LastTargetIsNew(init, last);
      SequentialIsSimultaneous(rows, init, now);
      ChecksSplit(rows, init, last);
      if ApplyAll(rows, init, now).Success? {
        var mid := ApplyAll(rows, init, now).value.0;
        ApplyOneOutcome(mid, last, now);
        OtherTargetsKeepCheck(rows, mid, init, now, last);
        if ApplyOne(mid, last, now).Success? {
          ExtendSimultaneous(rows, init, now, mid, last);
        }
      }
    }
  }

  lemma SimultaneousIsUnique(rows: Store, p: seq<Change>, q: seq<Change>, now: string, a: Store, b: Store)
    requires forall c :: c in p <==> c in q
    requires IsSimultaneous(rows, p, now, a) && IsSimultaneous(rows, q, now, b)
    ensures a == b
  {
    forall k | k in rows
      ensures a[k] == b[k]
    {
      if Touches(p, k) {
        var c :| c in p && TargetOf(c) == k;
        assert c in q;
      } else {
        assert !Touches(q, k);
      }
    }
  }

  lemma MembershipPermutes(p: seq<Change>, q: seq<Change>)
    requires multiset(p) == multiset(q)
    ensures forall c :: c in p <==> c in q
  {
    forall c ensures c in p <==> c in q {
      assert c in p <==> c in multiset(p);
      assert c in q <==> c in multiset(q);
    }
  }

  /** Any permutation of a distinct plan succeeds or fails with it and leaves the same rows. */
  lemma OrderIndependent(rows: Store, p: seq<Change>, q: seq<Change>, now: string)
    requires Distinct(p) && Distinct(q)
    requires multiset(p) == multiset(q)
    ensures ApplyAll(rows, p, now).Success? <==> ApplyAll(rows, q, now).Success?
    ensures ApplyAll(rows, p, now).Success? ==>
      ApplyAll(rows, p, now).value.0 == ApplyAll(rows, q, now).value.0
  {
    SequentialIsSimultaneous(rows, p, now);
    SequentialIsSimultaneous(rows, q, now);
    MembershipPermutes(p, q);
    assert AllCheck(rows, p) && AllWritable(p) <==>
           forall c | c in p :: Check(rows, c).Pass? && Writable(c);
    assert AllCheck(rows, q) && AllWritable(q) <==>
           forall c | c in q :: Check(rows, c).Pass? && Writable(c);
    if ApplyAll(rows, p, now).Success? {
      SimultaneousIsUnique(rows, p, q, now, ApplyAll(rows, p, now).value.0, ApplyAll(rows, q, now).value.0);
    }
  }

  // ---- one change, column by column ----

  /** A change is checked for a kind there is, a complete selector, allowed columns of which there is at
      least one, a row, and in it the value expected of each of these columns. */
  lemma CheckPassesIff(rows: Store, c: Change)
    ensures Check(rows, c).Pass? <==>
      && SpecOf(c.kind).Some? && c.before != map[] && c.before.Keys <= SpecOf(c.kind).value.allowed
      && |c.selector| == SpecOf(c.kind).value.keyCount && (forall part | part in c.selector :: part != "")
      && Key(c.kind, c.selector) in rows
      && forall col | col in c.before :: col in rows[Key(c.kind, c.selector)] && rows[Key(c.kind, c.selector)][col] == c.before[col]
  {
    if SpecOf(c.kind).Some? {
      SelectorByPart(SpecOf(c.kind).value, c.selector);
    }
    if Key(c.kind, c.selector) in rows {
      ProjectionHolds(rows[Key(c.kind, c.selector)], c.before);
    }
  }

  lemma {:induction false} SelectorByPart(spec: Spec, selector: seq<string>)
    ensures SelectorComplete(spec, selector) <==> |selector| == spec.keyCount && forall part | part in selector :: part != ""
  {
    if forall part | part in selector :: part != "" {
      forall i | 0 <= i < |selector| ensures selector[i] != "" {
        assert selector[i] in selector;
      }
    }
  }

  lemma ProjectionHolds(row: Row, columns: Row)
    ensures Project(row, columns.Keys) == columns <==> forall col | col in columns :: col in row && row[col] == columns[col]
  {
    if Project(row, columns.Keys) == columns {
      forall col | col in columns ensures col in row && row[col] == columns[col] {
        assert col in Project(row, columns.Keys);
      }
    }
  }

  /** What is not a placeholder for the time of Apply is written as it stands. */
  function ValueWritten(v: Value, now: string): Value {
    if v == NOW then Text(now) else v
  }

  /** A change that goes through sets its columns, and updated_at where the table has one, leaves every
      other column and row alone, and records the columns before and after. */
  lemma ChangeWrites(rows: Store, c: Change, now: string)
    requires ApplyOne(rows, c, now).Success?
    ensures var (out, r) := ApplyOne(rows, c, now).value;
      var k := Key(c.kind, c.selector);
      && SpecOf(c.kind).Some? && k in rows && out.Keys == rows.Keys && (forall l | l in rows && l != k :: out[l] == rows[l])
      && (forall col | col in c.after && col != UpdatedAt :: col in out[k] && out[k][col] == ValueWritten(c.after[col], now))
      && (SpecOf(c.kind).value.stamped ==> UpdatedAt in out[k] && out[k][UpdatedAt] == Text(now))
      && (forall col | col !in c.after && col != UpdatedAt ::
            (col in out[k] <==> col in rows[k]) && (col in rows[k] ==> out[k][col] == rows[k][col]))
      && r.before == c.before && r.after.Keys == c.after.Keys
      && (forall col | col in c.after :: r.after[col] == ValueWritten(c.after[col], now))
      && r.kind == c.kind && r.resourceId == c.resourceId && r.changeKind == c.changeKind
  {
  }
}
