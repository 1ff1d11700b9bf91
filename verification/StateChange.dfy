/** How planners build one change of a row (stateChange in impact-helpers.ts), and why the
    changes they build are versioned, reversible and fresh. */
module StateChanges {
  import opened Outcomes
  import opened MutationStore
  import opened MutationLaws
  import opened Undo

  /** A change that tests exactly the columns it writes and moves its kind's version by one. */
  predicate Stamped(c: Change) {
    && c.before.Keys == c.after.Keys
    && match VersionColumnOf(c.kind)
       case None => true
       case Some(col) =>
         col in c.before && c.before[col].Num? && c.after[col] == Num(c.before[col].n + 1)
  }

  predicate Good(c: Change) {
    Columnar(c) && Stamped(c) && Addressed(c)
  }

  /** The version counters the selected row shows. */
  function Counters(row: Row): set<Column> {
    set c | c in {Version, Revision, ConfigVersion} && Lookup(row, c).Num?
  }

  /** Nothing to do: the field has its value, and every extra column its own. */
  predicate AlreadyHolds(row: Row, field: Column, value: Value, extra: Row) {
    && Lookup(row, field) == value
    && forall c | c in extra :: if extra[c] == NOW then Lookup(row, c).Text? else c in row && row[c] == extra[c]
  }

  /** `row` holds the columns the planner selected; a column it did not select reads as null. */
  function StateChange(kind: Kind, resourceId: string, selector: seq<string>, row: Row,
                       field: Column, value: Value, changeKind: string, extra: Row): Option<Change>
  {
    if AlreadyHolds(row, field, value, extra) then None
    else
      var columns := {field} + extra.Keys + Counters(row);
      Some(Change(resourceId, kind, changeKind, selector,
                  map c | c in columns :: Lookup(row, c),
                  map c | c in columns ::
                    if c in Counters(row) then Num(Lookup(row, c).n + 1)
                    else if c in extra then extra[c]
                    else value))
  }

  /** Every planner selects the version column of its table along with the columns it changes. */
  predicate SelectsVersion(kind: Kind, row: Row) {
    match SpecOf(kind)
    case None => false
    case Some(spec) =>
      && row.Keys <= spec.allowed
      && match VersionColumnOf(kind) case None => true case Some(col) => col in row && row[col].Num?
  }

  lemma StateChangeShape(kind: Kind, resourceId: string, selector: seq<string>, row: Row,
                         field: Column, value: Value, changeKind: string, extra: Row)
    ensures var made := StateChange(kind, resourceId, selector, row, field, value, changeKind, extra);
      made.Some? ==>
        && made.value.before.Keys == made.value.after.Keys == {field} + extra.Keys + Counters(row)
        && made.value.before != map[] && made.value.after != map[]
        && forall c | c in Counters(row) ::
             made.value.before[c] == row[c] && made.value.after[c] == Num(row[c].n + 1)
  {
    var made := StateChange(kind, resourceId, selector, row, field, value, changeKind, extra);
    if made.Some? {
      assert field in made.value.before && field in made.value.after;
    }
  }

  lemma SpecFacts(kind: Kind)
    requires SpecOf(kind).Some?
    ensures var allowed := SpecOf(kind).value.allowed;
      && ConfigVersion !in allowed && UpdatedAt !in allowed
      && ConfidenceLevel !in allowed && ConfidenceJson !in allowed
      && !(Version in allowed && Revision in allowed)
      && (VersionColumnOf(kind) == Some(Version) <==> Version in allowed)
      && (VersionColumnOf(kind) == Some(Revision) <==> Revision in allowed)
      && (VersionColumnOf(kind).None? <==> allowed !! {Version, Revision})
  {
  }

  lemma CountersAreSelected(kind: Kind, row: Row)
    requires SelectsVersion(kind, row)
    ensures Counters(row) <= SpecOf(kind).value.allowed
    ensures VersionColumnOf(kind).Some? ==> VersionColumnOf(kind).value in Counters(row)
  {
    SpecFacts(kind);
    assert Counters(row) <= row.Keys;
  }

  lemma MadeIsStamped(c: Change, row: Row, bump: Option<Column>)
    requires bump == VersionColumnOf(c.kind) && (bump.Some? ==> bump.value in Counters(row))
    requires c.before.Keys == c.after.Keys && Counters(row) <= c.before.Keys
    requires forall col | col in Counters(row) :: c.before[col] == row[col] && c.after[col] == Num(row[col].n + 1)
    ensures Stamped(c)
  {
  }

  lemma StateChangeIsGood(kind: Kind, resourceId: string, selector: seq<string>, row: Row,
                          field: Column, value: Value, changeKind: string, extra: Row)
    requires SelectsVersion(kind, row)
    requires SelectorFor(kind, resourceId) == Success(selector)
    requires field in SpecOf(kind).value.allowed && extra.Keys <= SpecOf(kind).value.allowed
    ensures var made := StateChange(kind, resourceId, selector, row, field, value, changeKind, extra);
      made.Some? ==> Good(made.value)
  {
    StateChangeShape(kind, resourceId, selector, row, field, value, changeKind, extra);
    var made := StateChange(kind, resourceId, selector, row, field, value, changeKind, extra);
    CountersAreSelected(kind, row);
    if made.Some? {
      MadeIsStamped(made.value, row, VersionColumnOf(kind));
    }
  }

  /** Made from the stored row itself, a change is fresh exactly when every extra column the
      planner did not select is null in the table. */
  lemma StateChangeIsFreshIff(stored: Row, selected: set<Column>, kind: Kind, resourceId: string,
                              selector: seq<string>, field: Column, value: Value, changeKind: string, extra: Row)
    requires field in selected && field in stored && extra.Keys <= stored.Keys
    requires extra.Keys !! {field, Version, Revision, ConfigVersion}
    requires field !in {Version, Revision, ConfigVersion}
    ensures var made := StateChange(kind, resourceId, selector, Project(stored, selected),
                                    field, value, changeKind, extra);
      made.Some? ==>
        (Project(stored, made.value.before.Keys) == made.value.before <==>
         forall c | c in extra && c !in selected :: stored[c] == Null)
  {
    var row := Project(stored, selected);
    var made := StateChange(kind, resourceId, selector, row, field, value, changeKind, extra);
    if made.Some? {
      var before := made.value.before;
      forall c | c in extra
        ensures before[c] == Lookup(row, c)
      {
      }
      forall c | c in before && c !in extra
        ensures c in stored && stored[c] == before[c]
      {
      }
      if Project(stored, before.Keys) == before {
        forall c | c in extra && c !in selected
          ensures stored[c] == Null
        {
          assert Project(stored, before.Keys)[c] == stored[c];
        }
      }
    }
  }

  /** A change of the same row made now leaves no doubt about what it left behind. */
  lemma StateChangeReaches(row: Row, kind: Kind, resourceId: string, selector: seq<string>,
                           field: Column, value: Value, changeKind: string, extra: Row, now: string)
    requires SpecOf(kind).Some? && UpdatedAt !in extra && field != UpdatedAt && value != NOW
    requires field !in {Version, Revision, ConfigVersion} && field !in extra
    ensures var made := StateChange(kind, resourceId, selector, row, field, value, changeKind, extra);
      made.Some? ==> Lookup(WrittenRow(row, made.value, now), field) == value
  {
  }
}
