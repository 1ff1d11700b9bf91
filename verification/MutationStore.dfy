/** The row store behind every Plan, Undo and Restore (mutation-store.ts).
    A table row is a map from columns to values; the database maps a kind and
    its key-column values to a row.  JSON columns are kept in parsed form. */
module MutationStore {
  import opened Outcomes

  datatype Kind =
    | Source | Connection | Document | Chunk | Note | GraphNode | Entity | Relation | Claim
    | ClaimEvidence | RelationEvidence | EvidenceContext | Answer | Topic | Artifact
    | UnknownKind(name: string)

  datatype Column =
    | State | Status | CacheState | DeletedAt | TombstonedAt | StaleAt | StaleReason
    | Version | Revision | ConfigVersion | SpecJson | RelativePath | UserConfirmed
    | UpdatedAt | ConfidenceLevel | ConfidenceJson | ClaimId | OtherColumn(name: string)

  datatype Value = Null | Num(n: int) | Text(s: string) | Json(text: string)

  type Row = map<Column, Value>

  datatype Key = Key(kind: Kind, ids: seq<string>)

  type Store = map<Key, Row>

  datatype Spec = Spec(keyCount: nat, allowed: set<Column>, stamped: bool)

  /** The placeholder a planner writes for "the time of Apply". */
  const NOW: Value := Text("$now")

  datatype Change = Change(
    resourceId: string, kind: Kind, changeKind: string, selector: seq<string>, before: Row, after: Row)

  datatype Recorded = Recorded(
    resourceId: string, kind: Kind, changeKind: string,
    versionBefore: Option<int>, versionAfter: Option<int>, before: Row, after: Row)

  datatype Error = InvalidChange | Conflict | SqlSyntax | UndoInvalid

  /** RESOURCE_SPECS: which columns a plan may test and write. */
  function SpecOf(kind: Kind): Option<Spec> {
    match kind
    case Source => Some(Spec(1, {State, DeletedAt, Version, SpecJson}, true))
    case Connection => Some(Spec(1, {State, Revision}, true))
    case Document => Some(Spec(1, {State, DeletedAt, Version}, true))
    case Chunk => Some(Spec(1, {State, TombstonedAt}, true))
    case Note => Some(Spec(1, {State, DeletedAt, Version, RelativePath}, true))
    case GraphNode => Some(Spec(1, {Status, DeletedAt, Version}, true))
    case Entity => Some(Spec(1, {Status, Version, UserConfirmed}, true))
    case Relation => Some(Spec(1, {Status, DeletedAt, Version}, true))
    case Claim => Some(Spec(1, {Status, DeletedAt, Version}, true))
    case ClaimEvidence => Some(Spec(2, {State}, false))
    case RelationEvidence => Some(Spec(2, {State}, false))
    case EvidenceContext => Some(Spec(1, {State, StaleAt, StaleReason}, false))
    case Answer => Some(Spec(1, {CacheState, StaleAt, StaleReason}, false))
    case Topic => Some(Spec(1, {Status, DeletedAt, Version, StaleReason, StaleAt}, true))
    case Artifact => Some(Spec(1, {Status, DeletedAt, Version, StaleReason}, true))
    case UnknownKind(_) => None
  }

  /** The version counter a kind carries, if any. */
  function VersionColumnOf(kind: Kind): Option<Column> {
    match SpecOf(kind)
    case None => None
    case Some(spec) =>
      if Version in spec.allowed then Some(Version)
      else if Revision in spec.allowed then Some(Revision)
      else None
  }

  function TargetOf(c: Change): Key {
    Key(c.kind, c.selector)
  }

  function Project(row: Row, columns: set<Column>): Row {
    map c | c in columns && c in row :: row[c]
  }

  function NumberIn(v: Value): Option<int> {
    if v.Num? then Some(v.n) else None
  }

  function Lookup(row: Row, c: Column): Value {
    if c in row then row[c] else Null
  }

  /** `row.a ?? row.b`, with a missing column read as null. */
  function FirstNonNull(row: Row, a: Column, b: Column): Value {
    if Lookup(row, a) != Null then Lookup(row, a) else Lookup(row, b)
  }

  function Materialize(row: Row, now: string): Row {
    map c | c in row :: if row[c] == NOW then Text(now) else row[c]
  }

  predicate SelectorComplete(spec: Spec, selector: seq<string>) {
    |selector| == spec.keyCount && forall i | 0 <= i < |selector| :: selector[i] != ""
  }

  /** readCurrent followed by assertExpected. */
  function Check(rows: Store, c: Change): Outcome<Error> {
    match SpecOf(c.kind)
    case None => Fail(InvalidChange)
    case Some(spec) =>
      if !(c.before.Keys <= spec.allowed) || !SelectorComplete(spec, c.selector) then Fail(InvalidChange)
      else if c.before == map[] then Fail(SqlSyntax)
      else if TargetOf(c) !in rows then Fail(Conflict)
      else if Project(rows[TargetOf(c)], c.before.Keys) != c.before then Fail(Conflict)
      else Pass
  }

  /** The columns applyOne may write, and whether its UPDATE sets anything at all. */
  function CheckWrite(c: Change): Outcome<Error>
    requires SpecOf(c.kind).Some?
  {
    var spec := SpecOf(c.kind).value;
    if !(c.after.Keys <= spec.allowed) then Fail(InvalidChange)
    else if c.after == map[] && !spec.stamped then Fail(SqlSyntax)
    else Pass
  }

  function WrittenRow(row: Row, c: Change, now: string): Row
    requires SpecOf(c.kind).Some?
  {
    var written := row + Materialize(c.after, now);
    if SpecOf(c.kind).value.stamped then written[UpdatedAt := Text(now)] else written
  }

  function RecordOf(c: Change, now: string): Recorded {
    var after := Materialize(c.after, now);
    Recorded(c.resourceId, c.kind, c.changeKind,
             NumberIn(FirstNonNull(c.before, Version, Revision)),
             NumberIn(FirstNonNull(after, Version, Revision)),
             c.before, after)
  }

  function ApplyOne(rows: Store, c: Change, now: string): Result<(Store, Recorded), Error> {
    match Check(rows, c)
    case Fail(e) => Failure(e)
    case Pass =>
      match CheckWrite(c)
      case Fail(e) => Failure(e)
      case Pass => Success((rows[TargetOf(c) := WrittenRow(rows[TargetOf(c)], c, now)], RecordOf(c, now)))
  }

  /** The rows after the changes have been applied one after another. */
  function ApplyAll(rows: Store, plan: seq<Change>, now: string): Result<(Store, seq<Recorded>), Error> {
    if plan == [] then Success((rows, []))
    else
      match ApplyAll(rows, plan[..|plan| - 1], now)
      case Failure(e) => Failure(e)
      case Success((rows', recorded)) =>
        match ApplyOne(rows', plan[|plan| - 1], now)
        case Failure(e) => Failure(e)
        case Success((rows'', r)) => Success((rows'', recorded + [r]))
  }

  predicate AllCheck(rows: Store, plan: seq<Change>) {
    forall i | 0 <= i < |plan| :: Check(rows, plan[i]).Pass?
  }

  function FirstCheckError(rows: Store, plan: seq<Change>): Outcome<Error> {
    if plan == [] then Pass
    else if Check(rows, plan[0]).Fail? then Check(rows, plan[0])
    else FirstCheckError(rows, plan[1..])
  }

  lemma {:induction false} FirstCheckErrorPasses(rows: Store, plan: seq<Change>)
    ensures FirstCheckError(rows, plan).Pass? <==> AllCheck(rows, plan)
  {
    if plan != [] {
      FirstCheckErrorPasses(rows, plan[1..]);
      assert AllCheck(rows, plan) <==> Check(rows, plan[0]).Pass? && AllCheck(rows, plan[1..]) by {
        assert forall i | 1 <= i < |plan| :: plan[i] == plan[1..][i - 1];
        assert forall i | 0 <= i < |plan| - 1 :: plan[1..][i] == plan[i + 1];
      }
    }
  }

  lemma {:induction false} FailingPrefixFailsPlan(rows: Store, plan: seq<Change>, i: nat, now: string)
    requires i <= |plan|
    requires ApplyAll(rows, plan[..i], now).Failure?
    ensures ApplyAll(rows, plan, now) == ApplyAll(rows, plan[..i], now)
    decreases |plan|
  {
    if i == |plan| {
      assert plan[..i] == plan;
    } else {
      var shorter := plan[..|plan| - 1];
      assert shorter[..i] == plan[..i];
      FailingPrefixFailsPlan(rows, shorter, i, now);
    }
  }

  /** The SQLite handle: its rows are updated in place, one change after another. */
  class Database {
    var rows: Store

    constructor (initial: Store)
      ensures rows == initial
    {
      rows := initial;
    }

    method VerifyMutationChanges(planned: seq<Change>) returns (r: Outcome<Error>)
      ensures r == FirstCheckError(rows, planned)
      ensures r.Pass? <==> AllCheck(rows, planned)
    {
      FirstCheckErrorPasses(rows, planned);
      for i := 0 to |planned|
        invariant FirstCheckError(rows, planned) == FirstCheckError(rows, planned[i..])
      {
        assert planned[i..][1..] == planned[i + 1..];
        var checked := Check(rows, planned[i]);
        if checked.Fail? {
          return checked;
        }
      }
      return Pass;
    }

    method ApplyOneChange(change: Change, now: string) returns (r: Result<Recorded, Error>)
      modifies this
      ensures ApplyOne(old(rows), change, now) ==
              match r case Success(rec) => Success((rows, rec)) case Failure(e) => Failure(e)
      ensures r.Failure? ==> rows == old(rows)
    {
      var checked := Check(rows, change);
      if checked.Fail? {
        return Failure(checked.error);
      }
      var writable := CheckWrite(change);
      if writable.Fail? {
        return Failure(writable.error);
      }
      var key := TargetOf(change);
      rows := rows[key := WrittenRow(rows[key], change, now)];
      return Success(RecordOf(change, now));
    }

    /** A failure leaves the writes of the changes before it in place: undoing them is
        the enclosing transaction's task. */
    method ApplyMutationChanges(planned: seq<Change>, now: string) returns (r: Result<seq<Recorded>, Error>)
      modifies this
      ensures r.Success? ==> ApplyAll(old(rows), planned, now) == Success((rows, r.value))
      ensures r.Failure? ==> ApplyAll(old(rows), planned, now) == Failure(r.error)
      ensures r.Failure? ==>
        exists i, done :: 0 <= i < |planned| && ApplyAll(old(rows), planned[..i], now) == Success((rows, done))
    {
      var recorded := [];
      for i := 0 to |planned|
        invariant ApplyAll(old(rows), planned[..i], now) == Success((rows, recorded))
      {
        assert planned[..i + 1][..i] == planned[..i];
        var one := ApplyOneChange(planned[i], now);
        match one {
          case Failure(e) =>
            FailingPrefixFailsPlan(old(rows), planned, i + 1, now);
            assert ApplyAll(old(rows), planned[..i], now) == Success((rows, recorded));
            return Failure(e);
          case Success(rec) =>
            recorded := recorded + [rec];
        }
      }
      assert planned[..|planned|] == planned;
      return Success(recorded);
    }
  }
}
