/** Planners that delete an entity, a claim or a topic (resource-impact.ts).  Unlike the source
    planner they write deleted_at without selecting it, so a fresh plan may be refused; when it
    is, is decided exactly here. */
module ResourceImpact {
  import opened Outcomes
  import opened Ordering
  import opened MutationStore
  import opened MutationLaws
  import opened Undo
  import opened StateChanges
  import opened OperationLog
  import opened Cells
  import opened SourceImpact
  import opened SourceDelete

  /** A graph row with the nodes it connects. */
  datatype Edge = Edge(id: string, subjectNode: string, objectNode: string)

  function EdgesAt(edges: seq<Edge>, node: string): seq<string> {
    if edges == [] then []
    else (if edges[0].subjectNode == node || edges[0].objectNode == node then [edges[0].id] else [])
         + EdgesAt(edges[1..], node)
  }

  /** `SELECT status, version`, then write status and deleted_at. */
  function DeletedCell(kind: Kind, id: string): Cell {
    Cell(kind, id, [id], {Status, Version}, Status, "deleted", "deleted", {}, map[DeletedAt := NOW])
  }

  function DeletedArtifactCell(id: string): Cell {
    DeletedCell(Artifact, id).(skip := {"deleted"})
  }

  function EntityCell(id: string): Cell {
    Cell(Entity, id, [id], {Status, Version}, Status, "deleted", "deleted", {}, map[])
  }

  function EntityReason(entity: string): string {
    "entity_deleted:" + entity
  }

  function ClaimReason(claim: string): string {
    "claim_deleted:" + claim
  }

  function TopicsOfClaims(links: Links, claims: seq<string>): seq<string> {
    UniqueSorted(Referring(links.topicClaims, Members(claims)))
  }

  function EntityDirect(entity: string, node: string, relations: seq<Edge>, claims: seq<Edge>): seq<Cell> {
    [EntityCell(entity), DeletedCell(GraphNode, node)]
    + EachCell(EdgesAt(relations, node), RelationCell) + EachCell(EdgesAt(claims, node), ClaimCell)
  }

  function EntityDeleteCells(rows: Store, links: Links, entity: string, node: string,
                             relations: seq<Edge>, claims: seq<Edge>): seq<Cell>
  {
    EntityDirect(entity, node, relations, claims)
    + TopicCells(rows, links, TopicsOfClaims(links, EdgesAt(claims, node)), EntityReason(entity), true)
  }

  function ClaimDirect(claim: string, node: string): seq<Cell> {
    [DeletedCell(Claim, claim), DeletedCell(GraphNode, node)]
  }

  function ClaimDeleteCells(rows: Store, links: Links, claim: string, node: string): seq<Cell> {
    ClaimDirect(claim, node) + TopicCells(rows, links, TopicsOfClaims(links, [claim]), ClaimReason(claim), true)
  }

  function TopicDeleteCells(links: Links, topic: string): seq<Cell> {
    [DeletedCell(Topic, topic)] + EachCell(ArtifactsOf(links, topic), DeletedArtifactCell)
  }

  method DescribeEntityDelete(rows: Store, links: Links, entity: string, node: string,
                              relations: seq<Edge>, claims: seq<Edge>)
    returns (r: Result<seq<Change>, PlannerError>)
    ensures Key(Entity, [entity]) !in rows ==> r == Failure(NotFound)
    ensures Key(Entity, [entity]) in rows ==>
      if Lookup(rows[Key(Entity, [entity])], Status) in {Text("deleted"), Text("redirected")} then r == Failure(StateInvalid)
      else r == Success(MakeChanges(rows, EntityDeleteCells(rows, links, entity, node, relations, claims)))
  {
    if Key(Entity, [entity]) !in rows {
      return Failure(NotFound);
    }
    if Lookup(rows[Key(Entity, [entity])], Status) in {Text("deleted"), Text("redirected")} {
      return Failure(StateInvalid);
    }
    var changes := AppendChanges(rows, EntityDirect(entity, node, relations, claims), []);
    var topics := TopicsOfClaims(links, EdgesAt(claims, node));
    var downstream, _ := TopicAndArtifactChanges(rows, links, topics, EntityReason(entity), true);
    EntityChangesSplit(rows, links, entity, node, relations, claims);
    return Success(changes + downstream);
  }

  lemma EntityChangesSplit(rows: Store, links: Links, entity: string, node: string,
                           relations: seq<Edge>, claims: seq<Edge>)
    ensures var topics := TopicsOfClaims(links, EdgesAt(claims, node));
      MakeChanges(rows, EntityDeleteCells(rows, links, entity, node, relations, claims))
      == [] + MakeChanges(rows, EntityDirect(entity, node, relations, claims))
         + MakeChanges(rows, TopicCells(rows, links, UniqueSorted(topics), EntityReason(entity), true))
  {
    var topics := TopicsOfClaims(links, EdgesAt(claims, node));
    SortedIsCanonical(UniqueSorted(topics), topics);
    ChangesSplit(rows, EntityDirect(entity, node, relations, claims),
                 TopicCells(rows, links, topics, EntityReason(entity), true));
  }

  lemma ChangesSplit(rows: Store, direct: seq<Cell>, downstream: seq<Cell>)
    ensures MakeChanges(rows, direct + downstream) == [] + MakeChanges(rows, direct) + MakeChanges(rows, downstream)
  {
    MakeChangesConcat(rows, direct, downstream);
    var made := MakeChanges(rows, direct);
    assert [] + made == made;
  }

  method DescribeTopicDelete(rows: Store, links: Links, topic: string) returns (r: Result<seq<Change>, PlannerError>)
    ensures Key(Topic, [topic]) !in rows ==> r == Failure(NotFound)
    ensures Key(Topic, [topic]) in rows ==>
      if Lookup(rows[Key(Topic, [topic])], Status) == Text("deleted") then r == Failure(AlreadyDeleted)
      else r == Success(MakeChanges(rows, TopicDeleteCells(links, topic)))
  {
    if Key(Topic, [topic]) !in rows {
      return Failure(NotFound);
    }
    if Lookup(rows[Key(Topic, [topic])], Status) == Text("deleted") {
      return Failure(AlreadyDeleted);
    }
    var artifacts := EachCell(ArtifactsOf(links, topic), DeletedArtifactCell);
    MakeChangesConcat(rows, [DeletedCell(Topic, topic)], artifacts);
    var changes := AppendChanges(rows, [DeletedCell(Topic, topic)], []);
    assert changes == MakeChanges(rows, [DeletedCell(Topic, topic)]);
    changes := AppendChanges(rows, artifacts, changes);
    return Success(changes);
  }

  // ---- when a plan that overlooks columns passes ----

  /** Complete but for the extra columns, which the planner may not have selected. */
  predicate NearlyComplete(c: Cell) {
    && CompleteCell(c.(columns := c.columns + c.extra.Keys)) && c.field in c.columns
    && (VersionColumnOf(c.kind).Some? ==> VersionColumnOf(c.kind).value in c.columns)
  }

  /** The columns the cell writes without having selected them are null in the table. */
  predicate OverlookedAreNull(rows: Store, c: Cell) {
    CellChange(rows, c).Some? ==>
      forall col | col in c.extra && col !in c.columns :: Lookup(rows[KeyOfCell(c)], col) == Null
  }

  lemma NearlyCompletePassesIff(rows: Store, c: Cell)
    requires SchemaStore(rows) && NearlyComplete(c) && CellChange(rows, c).Some?
    ensures Check(rows, CellChange(rows, c).value).Pass? <==> OverlookedAreNull(rows, c)
    ensures Writable(CellChange(rows, c).value)
  {
    OverlookedColumnsDecide(rows, c);
    assert SchemaRow(c.kind, rows[KeyOfCell(c)]);
    StateChangeIsGood(c.kind, c.resourceId, c.selector, Project(rows[KeyOfCell(c)], c.columns),
                      c.field, Text(c.value), c.changeKind, c.extra);
  }

  /** A plan of such cells with distinct targets goes through exactly when no overlooked column
      holds a value. */
  lemma PlanPassesIff(rows: Store, cells: seq<Cell>, now: string)
    requires SchemaStore(rows) && DistinctCells(cells) && forall c | c in cells :: NearlyComplete(c)
    ensures ApplyAll(rows, MakeChanges(rows, cells), now).Success? <==> forall c | c in cells :: OverlookedAreNull(rows, c)
  {
    var made := MakeChanges(rows, cells);
    MadeChangesAreDistinct(rows, cells);
    SequentialIsSimultaneous(rows, made, now);
    forall i | 0 <= i < |made|
      ensures Writable(made[i])
      ensures (forall c | c in cells :: OverlookedAreNull(rows, c)) ==> Check(rows, made[i]).Pass?
    {
      ChangesComeFromCells(rows, cells, made[i]);
      var c :| c in cells && CellChange(rows, c) == Some(made[i]);
      NearlyCompletePassesIff(rows, c);
    }
    if AllCheck(rows, made) {
      forall c | c in cells ensures OverlookedAreNull(rows, c) {
        if CellChange(rows, c).Some? {
          ChangesComeFromCells(rows, cells, CellChange(rows, c).value);
          var i :| 0 <= i < |made| && made[i] == CellChange(rows, c).value;
          NearlyCompletePassesIff(rows, c);
        }
      }
    }
  }

  // ---- the three planners ----

  ghost predicate UniqueEdges(edges: seq<Edge>) {
    && (forall i, j | 0 <= i < j < |edges| :: edges[i].id != edges[j].id)
    && (forall e | e in edges :: e.id != "")
  }

  lemma {:induction false} EdgesAtAreUnique(edges: seq<Edge>, node: string)
    requires UniqueEdges(edges)
    ensures NoDuplicates(EdgesAt(edges, node)) && "" !in EdgesAt(edges, node)
    ensures forall x | x in EdgesAt(edges, node) :: exists i :: 0 <= i < |edges| && edges[i].id == x
  {
    if edges != [] {
      assert edges == [edges[0]] + edges[1..];
      EdgesAtAreUnique(edges[1..], node);
      forall x | x in EdgesAt(edges[1..], node)
        ensures x != edges[0].id && exists i :: 0 <= i < |edges| && edges[i].id == x
      {
        var i :| 0 <= i < |edges[1..]| && edges[1..][i].id == x;
        assert edges[i + 1].id == x;
      }
      var rest := EdgesAt(edges[1..], node);
      assert NoDuplicates([edges[0].id] + rest) by {
        assert forall i | 0 <= i < |rest| :: rest[i] in rest;
      }
    }
  }

  lemma CompleteIsNearlyComplete(c: Cell)
    requires CompleteCell(c)
    ensures NearlyComplete(c)
  {
    assert c.columns + c.extra.Keys == c.columns;
  }

  lemma DeletedCellIsNearlyComplete(kind: Kind, id: string)
    requires kind in {GraphNode, Claim, Topic, Artifact} && id != ""
    ensures NearlyComplete(DeletedCell(kind, id)) && NearlyComplete(DeletedArtifactCell(id)) && CompleteCell(EntityCell(id))
  {
    assert [id][0] != "";
  }

  lemma DeletedCellAlwaysChanges(rows: Store, c: Cell)
    requires c.extra == map[DeletedAt := NOW] && c.columns == {Status, Version}
    requires KeyOfCell(c) in rows && !Skipped(Project(rows[KeyOfCell(c)], c.columns), c)
    ensures CellChange(rows, c).Some?
    ensures OverlookedAreNull(rows, c) <==> Lookup(rows[KeyOfCell(c)], DeletedAt) == Null
  {
    assert DeletedAt in c.extra;
  }

  lemma KindsKeepApart(a: seq<Cell>, b: seq<Cell>)
    requires DistinctCells(a) && DistinctCells(b)
    requires forall c, d | c in a && d in b :: c.kind != d.kind
    ensures DistinctCells(a + b)
  {
    ConcatDistinct(a, b);
  }

  lemma EntityDirectIsGood(entity: string, node: string, relations: seq<Edge>, claims: seq<Edge>)
    requires UniqueEdges(relations) && UniqueEdges(claims) && entity != "" && node != ""
    ensures DistinctCells(EntityDirect(entity, node, relations, claims))
    ensures forall c | c in EntityDirect(entity, node, relations, claims) ::
              NearlyComplete(c) && (c == DeletedCell(GraphNode, node) || CompleteCell(c)) && !c.kind.Topic? && !c.kind.Artifact?
  {
    DeletedCellIsNearlyComplete(GraphNode, node);
    DeletedCellIsNearlyComplete(GraphNode, entity);
    EdgesAtAreUnique(relations, node);
    EdgesAtAreUnique(claims, node);
    GraphMakers();
    var first := [EntityCell(entity), DeletedCell(GraphNode, node)];
    var second := EachCell(EdgesAt(relations, node), RelationCell);
    var third := EachCell(EdgesAt(claims, node), ClaimCell);
    EachCellBlock(EdgesAt(relations, node), RelationCell, 8);
    EachCellBlock(EdgesAt(claims, node), ClaimCell, 7);
    KindsKeepApart(first, second);
    KindsKeepApart(first + second, third);
    forall c | c in first + second + third
      ensures NearlyComplete(c) && (c == DeletedCell(GraphNode, node) || CompleteCell(c)) && !c.kind.Topic? && !c.kind.Artifact?
    {
      if c in second || c in third || c == EntityCell(entity) {
        CompleteIsNearlyComplete(c);
      }
    }
  }

  lemma CompleteOverlooksNothing(rows: Store, c: Cell)
    requires CompleteCell(c)
    ensures OverlookedAreNull(rows, c)
  {
  }

  lemma TopicsBelowAreGood(rows: Store, links: Links, topics: seq<string>, reason: string)
    requires UniqueIds(links.artifacts) && NonEmptyIds(links.topicClaims)
    requires StrictlySorted(topics) && "" !in topics
    ensures var cells := TopicCells(rows, links, topics, reason, true);
      DistinctCells(cells) && forall c | c in cells :: CompleteCell(c) && (c.kind.Topic? || c.kind.Artifact?)
  {
    SortedHasNoDuplicates(topics);
    TopicCellsAreGood(rows, links, topics, reason, true);
    forall c | c in TopicCells(rows, links, topics, reason, true)
      ensures c.kind.Topic? || c.kind.Artifact?
    {
      assert TopicOrArtifactOf(links, topics, c);
    }
  }

  lemma NoEmptyTopic(links: Links, claims: seq<string>)
    requires NonEmptyIds(links.topicClaims)
    ensures "" !in TopicsOfClaims(links, claims)
  {
    ReferringMeans(links.topicClaims, Members(claims), "");
    UniqueSortedMembers(Referring(links.topicClaims, Members(claims)), "");
  }

  /** A list of cells passes exactly when the ones that overlook something do. */
  lemma MixedPlanPassesIff(rows: Store, direct: seq<Cell>, below: seq<Cell>, now: string)
    requires SchemaStore(rows)
    requires DistinctCells(direct) && DistinctCells(below)
    requires forall c | c in direct :: NearlyComplete(c) && !c.kind.Topic? && !c.kind.Artifact?
    requires forall c | c in below :: CompleteCell(c) && (c.kind.Topic? || c.kind.Artifact?)
    ensures ApplyAll(rows, MakeChanges(rows, direct + below), now).Success? <==>
            forall c | c in direct :: OverlookedAreNull(rows, c)
  {
    KindsKeepApart(direct, below);
    forall c | c in below
      ensures NearlyComplete(c) && OverlookedAreNull(rows, c)
    {
      CompleteIsNearlyComplete(c);
      CompleteOverlooksNothing(rows, c);
    }
    PlanPassesIff(rows, direct + below, now);
    assert (forall c | c in direct + below :: OverlookedAreNull(rows, c)) <==>
           (forall c | c in direct :: OverlookedAreNull(rows, c));
  }

  /** A fresh plan to delete an entity goes through exactly when its graph node carries no
      deletion time: a node deleted earlier and reactivated since makes every plan fail. */
  lemma EntityDeleteAppliesIff(rows: Store, links: Links, entity: string, node: string,
                               relations: seq<Edge>, claims: seq<Edge>, now: string)
    requires SchemaStore(rows) && UniqueEdges(relations) && UniqueEdges(claims)
    requires UniqueIds(links.artifacts) && NonEmptyIds(links.topicClaims)
    requires entity != "" && node != "" && Key(GraphNode, [node]) in rows
    ensures ApplyAll(rows, MakeChanges(rows, EntityDeleteCells(rows, links, entity, node, relations, claims)), now).Success?
            <==> Lookup(rows[Key(GraphNode, [node])], DeletedAt) == Null
  {
    var direct := EntityDirect(entity, node, relations, claims);
    var topics := TopicsOfClaims(links, EdgesAt(claims, node));
    EntityDirectIsGood(entity, node, relations, claims);
    NoEmptyTopic(links, EdgesAt(claims, node));
    TopicsBelowAreGood(rows, links, topics, EntityReason(entity));
    MixedPlanPassesIff(rows, direct, TopicCells(rows, links, topics, EntityReason(entity), true), now);
    DeletedCellAlwaysChanges(rows, DeletedCell(GraphNode, node));
    assert direct[1] == DeletedCell(GraphNode, node) && direct[1] in direct;
    forall c | c in direct && c != DeletedCell(GraphNode, node) ensures OverlookedAreNull(rows, c) {
      CompleteOverlooksNothing(rows, c);
    }
  }

  /** A claim and its node both have to be free of a deletion time. */
  lemma ClaimDeleteAppliesIff(rows: Store, links: Links, claim: string, node: string, now: string)
    requires SchemaStore(rows) && UniqueIds(links.artifacts) && NonEmptyIds(links.topicClaims)
    requires claim != "" && node != "" && Key(Claim, [claim]) in rows && Key(GraphNode, [node]) in rows
    ensures ApplyAll(rows, MakeChanges(rows, ClaimDeleteCells(rows, links, claim, node)), now).Success?
            <==> Lookup(rows[Key(Claim, [claim])], DeletedAt) == Null && Lookup(rows[Key(GraphNode, [node])], DeletedAt) == Null
  {
    var direct := ClaimDirect(claim, node);
    var topics := TopicsOfClaims(links, [claim]);
    DeletedCellIsNearlyComplete(Claim, claim);
    DeletedCellIsNearlyComplete(GraphNode, node);
    NoEmptyTopic(links, [claim]);
    TopicsBelowAreGood(rows, links, topics, ClaimReason(claim));
    MixedPlanPassesIff(rows, direct, TopicCells(rows, links, topics, ClaimReason(claim), true), now);
    DeletedCellAlwaysChanges(rows, direct[0]);
    DeletedCellAlwaysChanges(rows, direct[1]);
    assert direct[0] in direct && direct[1] in direct;
  }

  /** A topic and each of its artifacts not yet deleted have to be free of a deletion time. */
  lemma TopicDeleteAppliesIff(rows: Store, links: Links, topic: string, now: string)
    requires SchemaStore(rows) && UniqueIds(links.artifacts) && topic != "" && Key(Topic, [topic]) in rows
    ensures ApplyAll(rows, MakeChanges(rows, TopicDeleteCells(links, topic)), now).Success? <==>
            && Lookup(rows[Key(Topic, [topic])], DeletedAt) == Null
            && forall a | a in ArtifactsOf(links, topic) && Key(Artifact, [a]) in rows
                          && Lookup(rows[Key(Artifact, [a])], Status) != Text("deleted") ::
                 Lookup(rows[Key(Artifact, [a])], DeletedAt) == Null
  {
    var ids := ArtifactsOf(links, topic);
    var below := EachCell(ids, DeletedArtifactCell);
    var cells := TopicDeleteCells(links, topic);
    ReferringIsUnique(links.artifacts, {topic});
    DeletedCellIsNearlyComplete(Topic, topic);
    DeletedArtifactsAreGood(ids);
    KindsKeepApart([DeletedCell(Topic, topic)], below);
    PlanPassesIff(rows, cells, now);
    DeletedCellAlwaysChanges(rows, DeletedCell(Topic, topic));
    assert cells[0] == DeletedCell(Topic, topic) && cells[0] in cells;
    forall a | a in ids
      ensures DeletedArtifactCell(a) in cells
      ensures OverlookedAreNull(rows, DeletedArtifactCell(a)) <==>
              (Key(Artifact, [a]) in rows && Lookup(rows[Key(Artifact, [a])], Status) != Text("deleted") ==>
                 Lookup(rows[Key(Artifact, [a])], DeletedAt) == Null)
    {
      MakesIn(ids, DeletedArtifactCell, a);
      ArtifactOverlooks(rows, a);
    }
    forall c | c in below ensures exists a :: a in ids && c == DeletedArtifactCell(a) {
      var _ := MadeFrom(ids, DeletedArtifactCell, c);
    }
  }

  lemma DeletedArtifactsAreGood(ids: seq<string>)
    requires NoDuplicates(ids) && "" !in ids
    ensures DistinctCells(EachCell(ids, DeletedArtifactCell))
    ensures forall c | c in EachCell(ids, DeletedArtifactCell) :: NearlyComplete(c) && c.kind == Artifact
  {
    var cells := EachCell(ids, DeletedArtifactCell);
    forall i | 0 <= i < |cells| ensures NearlyComplete(cells[i]) && cells[i].kind == Artifact {
      assert ids[i] in ids;
      DeletedCellIsNearlyComplete(Artifact, ids[i]);
    }
    forall i, j | 0 <= i < j < |cells| ensures KeyOfCell(cells[i]) != KeyOfCell(cells[j]) {
      assert cells[i].selector[0] == ids[i] && cells[j].selector[0] == ids[j];
    }
  }

  lemma ArtifactOverlooks(rows: Store, a: string)
    ensures OverlookedAreNull(rows, DeletedArtifactCell(a)) <==>
            (Key(Artifact, [a]) in rows && Lookup(rows[Key(Artifact, [a])], Status) != Text("deleted") ==>
               Lookup(rows[Key(Artifact, [a])], DeletedAt) == Null)
  {
    var c := DeletedArtifactCell(a);
    assert DeletedAt in c.extra && DeletedAt !in c.columns;
    if Key(Artifact, [a]) in rows {
      assert Skipped(Project(rows[KeyOfCell(c)], c.columns), c) <==> Lookup(rows[KeyOfCell(c)], Status) == Text("deleted");
    }
  }

  // ---- deleted, made active again, deleted once more ----

  lemma WriteKeepsSchema(row: Row, c: Change, now: Time)
    requires SchemaRow(c.kind, row) && Good(c)
    ensures SchemaRow(c.kind, WrittenRow(row, c, now))
  {
    SpecFacts(c.kind);
    assert Materialize(c.after, now).Keys == c.after.Keys;
    forall col | col in WrittenRow(row, c, now) ensures WrittenRow(row, c, now)[col] != NOW {
      assert col in c.after ==> Materialize(c.after, now)[col] != NOW;
    }
  }

  lemma SimultaneousKeepsSchema(rows: Store, plan: seq<Change>, now: Time, out: Store)
    requires SchemaStore(rows) && IsSimultaneous(rows, plan, now, out) && forall c | c in plan :: Good(c)
    ensures SchemaStore(out)
  {
    forall k | k in out ensures SchemaRow(k.kind, out[k]) {
      if Touches(plan, k) {
        var c :| c in plan && TargetOf(c) == k;
        WriteKeepsSchema(rows[k], c, now);
      }
    }
  }

  /** What the deletion leaves: the schema, the entity deleted, its node with a deletion time. */
  ghost predicate DeletedAs(out: Store, entity: string, node: string) {
    && SchemaStore(out) && Key(Entity, [entity]) in out && Key(GraphNode, [node]) in out
    && Lookup(out[Key(Entity, [entity])], Status) == Text("deleted")
    && Lookup(out[Key(GraphNode, [node])], DeletedAt) != Null
  }

  lemma MadeAreGood(rows: Store, cells: seq<Cell>)
    requires SchemaStore(rows) && forall c | c in cells :: NearlyComplete(c)
    ensures forall change | change in MakeChanges(rows, cells) :: Good(change)
  {
    forall change | change in MakeChanges(rows, cells) ensures Good(change) {
      ChangesComeFromCells(rows, cells, change);
      var c :| c in cells && CellChange(rows, c) == Some(change);
      assert SchemaRow(c.kind, rows[KeyOfCell(c)]);
      StateChangeIsGood(c.kind, c.resourceId, c.selector, Project(rows[KeyOfCell(c)], c.columns),
                        c.field, Text(c.value), c.changeKind, c.extra);
    }
  }

  lemma NodeGetsTime(row: Row, c: Cell, change: Change, now: Time)
    requires c.extra == map[DeletedAt := NOW] && c.field == Status && SpecOf(c.kind).Some?
    requires StateChange(c.kind, c.resourceId, c.selector, Project(row, c.columns), c.field, Text(c.value), c.changeKind, c.extra)
             == Some(change)
    ensures Lookup(WrittenRow(row, change, now), DeletedAt) == Text(now)
  {
    assert DeletedAt !in Counters(Project(row, c.columns));
    assert DeletedAt in change.after && change.after[DeletedAt] == NOW;
  }

  lemma DirectlyDeleted(rows: Store, cells: seq<Cell>, entity: string, node: string, now: Time, out: Store)
    requires SchemaStore(rows) && DistinctCells(cells) && forall c | c in cells :: NearlyComplete(c)
    requires EntityCell(entity) in cells && DeletedCell(GraphNode, node) in cells && entity != ""
    requires Key(Entity, [entity]) in rows && Key(GraphNode, [node]) in rows
    requires IsSimultaneous(rows, MakeChanges(rows, cells), now, out)
    ensures DeletedAs(out, entity, node)
  {
    MadeAreGood(rows, cells);
    SimultaneousKeepsSchema(rows, MakeChanges(rows, cells), now, out);
    EntityIsDeleted(rows, cells, entity, now, out);
    var c := DeletedCell(GraphNode, node);
    DeletedCellAlwaysChanges(rows, c);
    ChangesComeFromCells(rows, cells, CellChange(rows, c).value);
    NodeGetsTime(rows[KeyOfCell(c)], c, CellChange(rows, c).value, now);
  }

  lemma EntityIsDeleted(rows: Store, cells: seq<Cell>, entity: string, now: Time, out: Store)
    requires SchemaStore(rows) && DistinctCells(cells) && EntityCell(entity) in cells && entity != ""
    requires Key(Entity, [entity]) in rows && IsSimultaneous(rows, MakeChanges(rows, cells), now, out)
    ensures Key(Entity, [entity]) in out && Lookup(out[Key(Entity, [entity])], Status) == Text("deleted")
  {
    var c, key := EntityCell(entity), Key(Entity, [entity]);
    DeletedCellIsNearlyComplete(GraphNode, entity);
    assert SchemaRow(Entity, rows[key]);
    match CellChange(rows, c) {
      case Some(change) =>
        ChangesComeFromCells(rows, cells, change);
        ChangedRowSettles(rows[key], c, change, now);
      case None =>
        UnchangedRowIsSettled(rows[key], c);
        forall change | change in MakeChanges(rows, cells) ensures TargetOf(change) != key {
          ChangesComeFromCells(rows, cells, change);
          var d :| d in cells && CellChange(rows, d) == Some(change);
          CellChangeTargets(rows, d);
          DistinctCellsByKey(cells, c, d);
        }
        assert !Touches(MakeChanges(rows, cells), key);
    }
  }

  /** Confirming the entity, which looks at its version and not at its state. */
  function Confirmation(entity: string): Cell {
    Cell(Entity, entity, [entity], {Status, Version, UserConfirmed}, Status, "active", "moderated", {}, map[UserConfirmed := Num(1)])
  }

  lemma ConfirmationGoesThrough(out: Store, entity: string, node: string, now: Time) returns (back: Store)
    requires DeletedAs(out, entity, node) && entity != ""
    ensures CellChange(out, Confirmation(entity)).Some?
    ensures ApplyOne(out, CellChange(out, Confirmation(entity)).value, now)
            == Success((back, RecordOf(CellChange(out, Confirmation(entity)).value, now)))
    ensures SchemaStore(back) && back.Keys == out.Keys
    ensures Lookup(back[Key(Entity, [entity])], Status) == Text("active")
    ensures back[Key(GraphNode, [node])] == out[Key(GraphNode, [node])]
  {
    var c, key := Confirmation(entity), Key(Entity, [entity]);
    assert SelectorComplete(SpecOf(Entity).value, [entity]);
    assert CompleteCell(c);
    var selected := Project(out[key], c.columns);
    assert SchemaRow(Entity, out[key]);
    assert Lookup(selected, Status) == Text("deleted");
    var change := CellChange(out, c).value;
    CellChangeIsFresh(out, c);
    ApplyOneOutcome(out, change, now);
    back := out[key := WrittenRow(out[key], change, now)];
    ChangedRowSettles(out[key], c, change, now);
    WriteKeepsSchema(out[key], change, now);
  }

  /** An entity deleted and then confirmed is active again, and the planner plans its deletion, but
      no such plan ever applies: its node still carries the time of the first. */
  lemma ReactivatedEntityCannotBeDeleted(rows: Store, links: Links, entity: string, node: string,
                                         relations: seq<Edge>, claims: seq<Edge>, t1: Time, t2: Time, t3: Time)
    returns (out: Store, back: Store)
    requires SchemaStore(rows) && UniqueEdges(relations) && UniqueEdges(claims)
    requires UniqueIds(links.artifacts) && NonEmptyIds(links.topicClaims)
    requires entity != "" && node != "" && Key(Entity, [entity]) in rows && Key(GraphNode, [node]) in rows
    requires Lookup(rows[Key(GraphNode, [node])], DeletedAt) == Null
    ensures var plan := MakeChanges(rows, EntityDeleteCells(rows, links, entity, node, relations, claims));
      ApplyAll(rows, plan, t1).Success? && ApplyAll(rows, plan, t1).value.0 == out
    ensures CellChange(out, Confirmation(entity)).Some?
    ensures ApplyOne(out, CellChange(out, Confirmation(entity)).value, t2).Success?
    ensures ApplyOne(out, CellChange(out, Confirmation(entity)).value, t2).value.0 == back
    ensures Key(Entity, [entity]) in back && Lookup(back[Key(Entity, [entity])], Status) == Text("active")
    ensures ApplyAll(back, MakeChanges(back, EntityDeleteCells(back, links, entity, node, relations, claims)), t3).Failure?
  {
    EntityDeleteAppliesIff(rows, links, entity, node, relations, claims, t1);
    var direct := EntityDirect(entity, node, relations, claims);
    var topics := TopicsOfClaims(links, EdgesAt(claims, node));
    var below := TopicCells(rows, links, topics, EntityReason(entity), true);
    EntityDirectIsGood(entity, node, relations, claims);
    NoEmptyTopic(links, EdgesAt(claims, node));
    TopicsBelowAreGood(rows, links, topics, EntityReason(entity));
    KindsKeepApart(direct, below);
    forall c | c in below ensures NearlyComplete(c) {
      CompleteIsNearlyComplete(c);
    }
    MadeChangesAreDistinct(rows, direct + below);
    SequentialIsSimultaneous(rows, MakeChanges(rows, direct + below), t1);
    out := ApplyAll(rows, MakeChanges(rows, direct + below), t1).value.0;
    assert direct[0] == EntityCell(entity) && direct[1] == DeletedCell(GraphNode, node);
    assert direct[0] in direct && direct[1] in direct;
    DirectlyDeleted(rows, direct + below, entity, node, t1, out);
    back := ConfirmationGoesThrough(out, entity, node, t2);
    EntityDeleteAppliesIff(back, links, entity, node, relations, claims, t3);
  }
}
