/** What deleting a source comes to: a fresh plan always goes through, everything that rests
    on the source is settled, nothing else changes, and a restore brings it all back. */
module SourceDelete {
  import opened Outcomes
  import opened Ordering
  import opened MutationStore
  import opened MutationLaws
  import opened Undo
  import opened StateChanges
  import opened OperationLog
  import opened OperationHistory
  import opened Cells
  import opened SourceImpact

  // ---- what the schema promises of the reference columns ----

  ghost predicate UniqueIds(links: seq<Link>) {
    && (forall i, j | 0 <= i < j < |links| :: links[i].id != links[j].id)
    && (forall l | l in links :: l.id != "")
  }

  /** Primary key, non-empty parts, and parts that survive being joined by a separator. */
  ghost predicate UniqueEvidence(links: seq<EvidenceLink>) {
    && (forall i, j | 0 <= i < j < |links| :: [links[i].owner, links[i].evidence] != [links[j].owner, links[j].evidence])
    && (forall e | e in links ::
          && e.owner != "" && e.evidence != ""
          && !HasSeparator(e.owner) && !HasSeparator(e.evidence) && !EndsInColon(e.owner))
  }

  ghost predicate NonEmptyIds(links: seq<Link>) {
    forall l | l in links :: l.id != ""
  }

  ghost predicate WellLinked(links: Links) {
    && UniqueIds(links.connections) && UniqueIds(links.documents) && UniqueIds(links.chunks)
    && UniqueIds(links.nodes) && UniqueIds(links.answers) && UniqueIds(links.artifacts)
    && UniqueEvidence(links.claimEvidence) && UniqueEvidence(links.relationEvidence)
    && NonEmptyIds(links.contextItems) && NonEmptyIds(links.topicCitations) && NonEmptyIds(links.topicClaims)
  }

  ghost predicate NoDuplicates(ids: seq<string>) {
    forall i, j | 0 <= i < j < |ids| :: ids[i] != ids[j]
  }

  lemma {:induction false} ReferringIsUnique(links: seq<Link>, refs: set<string>)
    requires UniqueIds(links)
    ensures NoDuplicates(Referring(links, refs)) && "" !in Referring(links, refs)
  {
    if links != [] {
      assert links == [links[0]] + links[1..];
      ReferringIsUnique(links[1..], refs);
      ReferringMeans(links[1..], refs, links[0].id);
      forall l | l in links[1..] ensures l.id != links[0].id {
        var i :| 0 <= i < |links[1..]| && links[1..][i] == l;
        assert links[i + 1] == l;
      }
      assert links[0].id !in Referring(links[1..], refs);
    }
  }

  lemma {:induction false} EvidenceIsUnique(links: seq<EvidenceLink>, chunks: set<string>)
    requires UniqueEvidence(links)
    ensures UniqueEvidence(EvidenceIn(links, chunks))
  {
    if links != [] {
      assert links == [links[0]] + links[1..];
      EvidenceIsUnique(links[1..], chunks);
      var rest := EvidenceIn(links[1..], chunks);
      forall j | 0 <= j < |rest|
        ensures [links[0].owner, links[0].evidence] != [rest[j].owner, rest[j].evidence]
      {
        EvidenceInMeans(links[1..], chunks, rest[j]);
        assert rest[j] in rest;
        var i :| 0 <= i < |links[1..]| && links[1..][i] == rest[j];
        assert links[i + 1] == rest[j];
      }
    }
  }

  lemma SortedHasNoDuplicates(ids: seq<string>)
    requires StrictlySorted(ids)
    ensures NoDuplicates(ids)
  {
    forall i, j | 0 <= i < j < |ids| ensures ids[i] != ids[j] {
      StrictlySortedIsDistinct(ids, i, j);
    }
  }

  // ---- the cells have distinct targets ----

  function Rank(kind: Kind): nat {
    match kind
    case Source => 0 case Connection => 1 case Document => 2 case Chunk => 3 case GraphNode => 4
    case ClaimEvidence => 5 case RelationEvidence => 6 case Claim => 7 case Relation => 8
    case EvidenceContext => 9 case Answer => 10 case Topic => 11 case Artifact => 12
    case _ => 13
  }

  /** Cells of one kind with distinct targets, all complete. */
  ghost predicate Block(cells: seq<Cell>, rank: nat) {
    DistinctCells(cells) && AllComplete(cells) && forall c | c in cells :: Rank(c.kind) == rank
  }

  lemma ConcatDistinct(a: seq<Cell>, b: seq<Cell>)
    requires DistinctCells(a) && DistinctCells(b)
    requires forall c, d | c in a && d in b :: KeyOfCell(c) != KeyOfCell(d)
    ensures DistinctCells(a + b)
  {
    forall i, j | 0 <= i < j < |a + b|
      ensures KeyOfCell((a + b)[i]) != KeyOfCell((a + b)[j])
    {
      if i < |a| <= j {
        assert a[i] in a && b[j - |a|] in b;
      }
    }
  }

  lemma {:induction false} FlattenBlocks(parts: seq<seq<Cell>>)
    requires forall i | 0 <= i < |parts| :: Block(parts[i], i)
    ensures DistinctCells(Flatten(parts)) && AllComplete(Flatten(parts))
    ensures forall c | c in Flatten(parts) :: Rank(c.kind) < |parts|
    ensures forall i, c | 0 <= i < |parts| && c in parts[i] :: c in Flatten(parts)
    ensures forall c | c in Flatten(parts) :: exists i :: 0 <= i < |parts| && c in parts[i]
  {
    if parts != [] {
      var init, last := parts[..|parts| - 1], parts[|parts| - 1];
      FlattenBlocks(init);
      ConcatDistinct(Flatten(init), last);
    }
  }

  /** The cells one id each makes, when each has the id's own selector. */
  lemma IdBlock(ids: seq<string>, cells: seq<Cell>, rank: nat)
    requires NoDuplicates(ids) && "" !in ids
    requires |cells| == |ids|
    requires forall i | 0 <= i < |ids| ::
               cells[i].selector == [ids[i]] && cells[i].resourceId == ids[i]
               && (ids[i] != "" ==> CompleteCell(cells[i])) && Rank(cells[i].kind) == rank
    ensures Block(cells, rank)
  {
    forall i, j | 0 <= i < j < |cells|
      ensures KeyOfCell(cells[i]) != KeyOfCell(cells[j])
    {
      assert ids[i] != ids[j];
      assert cells[i].selector[0] == ids[i] && cells[j].selector[0] == ids[j];
    }
    forall i | 0 <= i < |cells| ensures CompleteCell(cells[i]) {
      assert ids[i] in ids;
    }
  }

  lemma EvidenceBlock(kind: Kind, evidence: seq<EvidenceLink>)
    requires kind.ClaimEvidence? || kind.RelationEvidence?
    requires UniqueEvidence(evidence)
    ensures Block(EachEvidenceCell(kind, evidence), Rank(kind))
  {
    var cells := EachEvidenceCell(kind, evidence);
    forall i | 0 <= i < |cells| ensures CompleteCell(cells[i]) {
      var e := evidence[i];
      assert e in evidence;
      SplitJoinIff(e.owner, e.evidence);
    }
  }

  predicate OneKeyComplete(id: string, c: Cell) {
    c.resourceId == id && c.selector == [id] && (id != "" ==> CompleteCell(c))
  }

  lemma ContentCellsComplete(id: string)
    ensures OneKeyComplete(id, SourceCell(id)) && OneKeyComplete(id, ConnectionCell(id))
    ensures OneKeyComplete(id, DocumentCell(id)) && OneKeyComplete(id, ChunkCell(id))
  {
  }

  lemma GraphCellsComplete(id: string)
    ensures OneKeyComplete(id, NodeCell(id))
    ensures OneKeyComplete(id, ClaimCell(id)) && OneKeyComplete(id, RelationCell(id))
  {
  }

  lemma DownstreamCellsComplete(id: string, reason: string)
    ensures OneKeyComplete(id, ContextCell(id, reason)) && OneKeyComplete(id, AnswerCell(id, reason))
  {
  }

  lemma TopicCellsComplete(id: string, reason: string, review: bool)
    ensures OneKeyComplete(id, TopicCell(id, reason, review)) && OneKeyComplete(id, ArtifactCell(id, reason))
  {
  }

  lemma IdsAreUnique(links: Links, source: string)
    requires WellLinked(links)
    ensures NoDuplicates(Referring(links.connections, {source})) && "" !in Referring(links.connections, {source})
    ensures NoDuplicates(DocumentsOf(links, source)) && "" !in DocumentsOf(links, source)
    ensures NoDuplicates(ChunksOf(links, source)) && "" !in ChunksOf(links, source)
    ensures NoDuplicates(NodesOf(links, source)) && "" !in NodesOf(links, source)
    ensures NoDuplicates(AnswersOf(links, source)) && "" !in AnswersOf(links, source)
  {
    ReferringIsUnique(links.connections, {source});
    ReferringIsUnique(links.documents, {source});
    ReferringIsUnique(links.chunks, Members(DocumentsOf(links, source)));
    ReferringIsUnique(links.nodes, {source} + Members(DocumentsOf(links, source)) + Members(ChunksOf(links, source)));
    ReferringIsUnique(links.answers, Members(ContextsOf(links, source)));
  }

  lemma SortedIdsAreUnique(links: Links, source: string)
    requires WellLinked(links)
    ensures NoDuplicates(ClaimsOf(links, source)) && "" !in ClaimsOf(links, source)
    ensures NoDuplicates(RelationsOf(links, source)) && "" !in RelationsOf(links, source)
    ensures NoDuplicates(ContextsOf(links, source)) && "" !in ContextsOf(links, source)
    ensures NoDuplicates(TopicsOf(links, source)) && "" !in TopicsOf(links, source)
  {
    EvidenceIsUnique(links.claimEvidence, Members(ChunksOf(links, source)));
    EvidenceIsUnique(links.relationEvidence, Members(ChunksOf(links, source)));
    ReferringMeans(links.contextItems, {source}, "");
    ReferringMeans(links.topicCitations, {source}, "");
    ReferringMeans(links.topicClaims, Members(ClaimsOf(links, source)), "");
    SortedHasNoDuplicates(ClaimsOf(links, source));
    SortedHasNoDuplicates(RelationsOf(links, source));
    SortedHasNoDuplicates(ContextsOf(links, source));
    SortedHasNoDuplicates(TopicsOf(links, source));
    UniqueSortedMembers(Owners(ClaimEvidenceOf(links, source)), "");
    UniqueSortedMembers(Owners(RelationEvidenceOf(links, source)), "");
    UniqueSortedMembers(Referring(links.contextItems, {source}), "");
    UniqueSortedMembers(Referring(links.topicCitations, {source}) +
                        Referring(links.topicClaims, Members(ClaimsOf(links, source))), "");
  }

  /** Every cell `make` makes is complete when its id is not empty, and of one kind. */
  ghost predicate Maker(make: string -> Cell, rank: nat) {
    forall id :: OneKeyComplete(id, make(id)) && Rank(make(id).kind) == rank
  }

  lemma ContentMakers()
    ensures Maker(SourceCell, 0) && Maker(ConnectionCell, 1) && Maker(DocumentCell, 2) && Maker(ChunkCell, 3)
  {
    forall id: string ensures OneKeyComplete(id, SourceCell(id)) && OneKeyComplete(id, ConnectionCell(id))
      && OneKeyComplete(id, DocumentCell(id)) && OneKeyComplete(id, ChunkCell(id)) {
      ContentCellsComplete(id);
    }
  }

  lemma GraphMakers()
    ensures Maker(NodeCell, 4) && Maker(ClaimCell, 7) && Maker(RelationCell, 8)
  {
    forall id: string ensures OneKeyComplete(id, NodeCell(id)) && OneKeyComplete(id, ClaimCell(id))
      && OneKeyComplete(id, RelationCell(id)) {
      GraphCellsComplete(id);
    }
  }

  lemma EachCellBlock(ids: seq<string>, make: string -> Cell, rank: nat)
    requires NoDuplicates(ids) && "" !in ids
    requires Maker(make, rank)
    ensures Block(EachCell(ids, make), rank)
  {
    var cells := EachCell(ids, make);
    forall i | 0 <= i < |ids|
      ensures cells[i].selector == [ids[i]] && cells[i].resourceId == ids[i]
      ensures (ids[i] != "" ==> CompleteCell(cells[i])) && Rank(cells[i].kind) == rank
    {
      assert OneKeyComplete(ids[i], make(ids[i]));
    }
    IdBlock(ids, cells, rank);
  }

  lemma ContentBlocks(links: Links, source: string)
    requires WellLinked(links) && source != ""
    ensures Block([SourceCell(source)], 0)
    ensures Block(EachCell(Referring(links.connections, {source}), ConnectionCell), 1)
    ensures Block(EachCell(DocumentsOf(links, source), DocumentCell), 2)
    ensures Block(EachCell(ChunksOf(links, source), ChunkCell), 3)
  {
    IdsAreUnique(links, source);
    ContentMakers();
    EachCellBlock([source], SourceCell, 0);
    assert EachCell([source], SourceCell) == [SourceCell(source)];
    EachCellBlock(Referring(links.connections, {source}), ConnectionCell, 1);
    EachCellBlock(DocumentsOf(links, source), DocumentCell, 2);
    EachCellBlock(ChunksOf(links, source), ChunkCell, 3);
  }

  lemma GraphBlocks(links: Links, source: string)
    requires WellLinked(links)
    ensures Block(EachCell(NodesOf(links, source), NodeCell), 4)
    ensures Block(EachCell(ClaimsOf(links, source), ClaimCell), 7)
    ensures Block(EachCell(RelationsOf(links, source), RelationCell), 8)
  {
    IdsAreUnique(links, source);
    SortedIdsAreUnique(links, source);
    GraphMakers();
    EachCellBlock(NodesOf(links, source), NodeCell, 4);
    EachCellBlock(ClaimsOf(links, source), ClaimCell, 7);
    EachCellBlock(RelationsOf(links, source), RelationCell, 8);
  }

  lemma EvidenceInBlock(kind: Kind, links: seq<EvidenceLink>, chunks: set<string>)
    requires kind.ClaimEvidence? || kind.RelationEvidence?
    requires UniqueEvidence(links)
    ensures Block(EachEvidenceCell(kind, EvidenceIn(links, chunks)), Rank(kind))
  {
    EvidenceIsUnique(links, chunks);
    EvidenceBlock(kind, EvidenceIn(links, chunks));
  }

  lemma EvidenceBlocks(links: Links, source: string)
    requires WellLinked(links)
    ensures Block(EachEvidenceCell(ClaimEvidence, ClaimEvidenceOf(links, source)), 5)
    ensures Block(EachEvidenceCell(RelationEvidence, RelationEvidenceOf(links, source)), 6)
  {
    EvidenceInBlock(ClaimEvidence, links.claimEvidence, Members(ChunksOf(links, source)));
    EvidenceInBlock(RelationEvidence, links.relationEvidence, Members(ChunksOf(links, source)));
  }

  lemma ContextBlock(ids: seq<string>, reason: string)
    requires NoDuplicates(ids) && "" !in ids
    ensures Block(ContextCells(ids, reason), 9)
  {
    forall i | 0 <= i < |ids| ensures OneKeyComplete(ids[i], ContextCell(ids[i], reason)) {
      DownstreamCellsComplete(ids[i], reason);
    }
    IdBlock(ids, ContextCells(ids, reason), 9);
  }

  lemma AnswerBlock(ids: seq<string>, reason: string)
    requires NoDuplicates(ids) && "" !in ids
    ensures Block(AnswerCells(ids, reason), 10)
  {
    forall i | 0 <= i < |ids| ensures OneKeyComplete(ids[i], AnswerCell(ids[i], reason)) {
      DownstreamCellsComplete(ids[i], reason);
    }
    IdBlock(ids, AnswerCells(ids, reason), 10);
  }

  lemma InvalidationBlocks(links: Links, source: string)
    requires WellLinked(links)
    ensures Block(ContextCells(ContextsOf(links, source), Reason(source)), 9)
    ensures Block(AnswerCells(AnswersOf(links, source), Reason(source)), 10)
  {
    IdsAreUnique(links, source);
    SortedIdsAreUnique(links, source);
    ContextBlock(ContextsOf(links, source), Reason(source));
    AnswerBlock(AnswersOf(links, source), Reason(source));
  }

  lemma ElevenBlocks(a: seq<Cell>, b: seq<Cell>, c: seq<Cell>, d: seq<Cell>, e: seq<Cell>, f: seq<Cell>,
                     g: seq<Cell>, h: seq<Cell>, i: seq<Cell>, j: seq<Cell>, k: seq<Cell>)
    requires Block(a, 0) && Block(b, 1) && Block(c, 2) && Block(d, 3) && Block(e, 4) && Block(f, 5)
    requires Block(g, 6) && Block(h, 7) && Block(i, 8) && Block(j, 9) && Block(k, 10)
    ensures forall n | 0 <= n < 11 :: Block([a, b, c, d, e, f, g, h, i, j, k][n], n)
  {
  }

  lemma DirectBlocks(links: Links, source: string)
    requires WellLinked(links) && source != ""
    ensures |DirectCells(links, source)| == 11
    ensures forall i | 0 <= i < 11 :: Block(DirectCells(links, source)[i], i)
  {
    ContentBlocks(links, source);
    GraphBlocks(links, source);
    EvidenceBlocks(links, source);
    InvalidationBlocks(links, source);
    ElevenBlocks([SourceCell(source)],
                 EachCell(Referring(links.connections, {source}), ConnectionCell),
                 EachCell(DocumentsOf(links, source), DocumentCell),
                 EachCell(ChunksOf(links, source), ChunkCell),
                 EachCell(NodesOf(links, source), NodeCell),
                 EachEvidenceCell(ClaimEvidence, ClaimEvidenceOf(links, source)),
                 EachEvidenceCell(RelationEvidence, RelationEvidenceOf(links, source)),
                 EachCell(ClaimsOf(links, source), ClaimCell),
                 EachCell(RelationsOf(links, source), RelationCell),
                 ContextCells(ContextsOf(links, source), Reason(source)),
                 AnswerCells(AnswersOf(links, source), Reason(source)));
  }

  lemma DirectCellsAreGood(links: Links, source: string)
    requires WellLinked(links) && source != ""
    ensures DistinctCells(Flatten(DirectCells(links, source))) && AllComplete(Flatten(DirectCells(links, source)))
  {
    DirectBlocks(links, source);
    FlattenBlocks(DirectCells(links, source));
  }

  lemma DirectCellsRank(links: Links, source: string)
    requires WellLinked(links) && source != ""
    ensures forall c | c in Flatten(DirectCells(links, source)) :: Rank(c.kind) < 11
  {
    DirectBlocks(links, source);
    FlattenBlocks(DirectCells(links, source));
  }

  lemma DirectCellsAreParts(links: Links, source: string)
    requires WellLinked(links) && source != ""
    ensures |DirectCells(links, source)| == 11
    ensures forall i, c | 0 <= i < 11 && c in DirectCells(links, source)[i] :: c in Flatten(DirectCells(links, source))
    ensures forall c | c in Flatten(DirectCells(links, source)) :: exists i :: 0 <= i < 11 && c in DirectCells(links, source)[i]
  {
    DirectBlocks(links, source);
    FlattenBlocks(DirectCells(links, source));
  }

  // ---- topics and artifacts ----

  ghost predicate TopicOrArtifactOf(links: Links, topics: seq<string>, c: Cell) {
    && (c.kind.Topic? || c.kind.Artifact?)
    && (c.kind.Topic? ==> exists t :: t in topics && c.selector == [t])
    && (c.kind.Artifact? ==> exists t, a :: t in topics && a in ArtifactsOf(links, t) && c.selector == [a])
  }

  lemma OneTopicIsGood(rows: Store, links: Links, topic: string, reason: string, review: bool)
    requires UniqueIds(links.artifacts) && topic != ""
    ensures var cells := OneTopicCells(rows, links, topic, reason, review);
      && DistinctCells(cells) && AllComplete(cells)
      && forall c | c in cells :: TopicOrArtifactOf(links, [topic], c)
  {
    if !TopicGone(rows, topic) {
      var ids := ArtifactsOf(links, topic);
      ReferringIsUnique(links.artifacts, {topic});
      forall id ensures OneKeyComplete(id, TopicCell(id, reason, review)) && OneKeyComplete(id, ArtifactCell(id, reason)) {
        TopicCellsComplete(id, reason, review);
      }
      IdBlock(ids, ArtifactCells(ids, reason), 12);
      ConcatDistinct([TopicCell(topic, reason, review)], ArtifactCells(ids, reason));
      assert topic in [topic];
      forall c | c in ArtifactCells(ids, reason) ensures TopicOrArtifactOf(links, [topic], c) {
        var i :| 0 <= i < |ids| && ArtifactCells(ids, reason)[i] == c;
        assert ids[i] in ids;
      }
    }
  }

  /** An artifact belongs to one topic, so two topics never reach the same one. */
  lemma ArtifactHasOneTopic(links: Links, t: string, u: string, a: string)
    requires UniqueIds(links.artifacts)
    requires a in ArtifactsOf(links, t) && a in ArtifactsOf(links, u)
    ensures t == u
  {
    ReferringMeans(links.artifacts, {t}, a);
    ReferringMeans(links.artifacts, {u}, a);
    var l :| l in links.artifacts && l.id == a && l.ref in {t};
    var m :| m in links.artifacts && m.id == a && m.ref in {u};
    var i :| 0 <= i < |links.artifacts| && links.artifacts[i] == l;
    var j :| 0 <= j < |links.artifacts| && links.artifacts[j] == m;
    assert i < j || j < i || i == j;
  }

  lemma {:induction false} TopicCellsAreGood(rows: Store, links: Links, topics: seq<string>, reason: string, review: bool)
    requires UniqueIds(links.artifacts) && NoDuplicates(topics) && "" !in topics
    ensures var cells := TopicCells(rows, links, topics, reason, review);
      && DistinctCells(cells) && AllComplete(cells)
      && (forall c | c in cells :: TopicOrArtifactOf(links, topics, c))
      && (forall t, c | t in topics && c in OneTopicCells(rows, links, t, reason, review) :: c in cells)
  {
    if topics != [] {
      var init, last := topics[..|topics| - 1], topics[|topics| - 1];
      assert topics == init + [last];
      TopicCellsAreGood(rows, links, init, reason, review);
      OneTopicIsGood(rows, links, last, reason, review);
      var earlier := TopicCells(rows, links, init, reason, review);
      var own := OneTopicCells(rows, links, last, reason, review);
      forall c, d | c in earlier && d in own
        ensures KeyOfCell(c) != KeyOfCell(d)
      {
        TopicsKeepApart(links, init, last, c, d);
      }
      ConcatDistinct(earlier, own);
      forall c | c in earlier + own ensures TopicOrArtifactOf(links, topics, c) {
        assert TopicOrArtifactOf(links, init, c) || TopicOrArtifactOf(links, [last], c);
      }
    }
  }

  lemma TopicsKeepApart(links: Links, init: seq<string>, last: string, c: Cell, d: Cell)
    requires UniqueIds(links.artifacts) && last !in init
    requires TopicOrArtifactOf(links, init, c) && TopicOrArtifactOf(links, [last], d)
    ensures KeyOfCell(c) != KeyOfCell(d)
  {
    if c.kind.Artifact? && d.kind.Artifact? {
      var t, a :| t in init && a in ArtifactsOf(links, t) && c.selector == [a];
      var u, b :| u in [last] && b in ArtifactsOf(links, u) && d.selector == [b];
      assert [a][0] == a && [b][0] == b;
      assert t != u;
      if a == b {
        ArtifactHasOneTopic(links, t, u, a);
      }
    } else if c.kind.Topic? && d.kind.Topic? {
      var t :| t in init && c.selector == [t];
      var u :| u in [last] && d.selector == [u];
      assert [t][0] == t && [u][0] == u;
    }
  }

  lemma LaterKindsKeepApart(a: seq<Cell>, b: seq<Cell>)
    requires DistinctCells(a) && DistinctCells(b)
    requires (forall c | c in a :: Rank(c.kind) < 11) && (forall d | d in b :: d.kind.Topic? || d.kind.Artifact?)
    ensures DistinctCells(a + b)
  {
    ConcatDistinct(a, b);
  }

  lemma TopicCellKinds(rows: Store, links: Links, source: string)
    requires WellLinked(links)
    ensures var cells := TopicCells(rows, links, TopicsOf(links, source), Reason(source), true);
      && DistinctCells(cells) && AllComplete(cells) && forall c | c in cells :: c.kind.Topic? || c.kind.Artifact?
  {
    SortedIdsAreUnique(links, source);
    TopicCellsAreGood(rows, links, TopicsOf(links, source), Reason(source), true);
  }

  lemma SourceCellsAreGood(rows: Store, links: Links, source: string)
    requires WellLinked(links) && source != ""
    ensures DistinctCells(SourceCells(rows, links, source)) && AllComplete(SourceCells(rows, links, source))
  {
    DirectCellsAreGood(links, source);
    DirectCellsRank(links, source);
    TopicCellKinds(rows, links, source);
    LaterKindsKeepApart(Flatten(DirectCells(links, source)),
                        TopicCells(rows, links, TopicsOf(links, source), Reason(source), true));
  }

  // ---- what the deletion comes to ----

  /** Such a row, if there is one, is left as it was in one of the states to skip, and otherwise ends in
      this state with the extra columns set. */
  predicate Settles(rows: Store, out: Store, k: Key, field: Column, state: string, skip: set<string>, extra: Row) {
    k in rows ==>
      && k in out
      && if Lookup(rows[k], field).Text? && Lookup(rows[k], field).s in skip then out[k] == rows[k]
         else Lookup(out[k], field) == Text(state) && ExtraHolds(out[k], extra)
  }

  predicate Unchanged(rows: Store, out: Store, k: Key) {
    k in rows ==> k in out && out[k] == rows[k]
  }

  /** The source, its connections, its documents and their chunks. */
  ghost predicate ContentGone(rows: Store, out: Store, links: Links, source: string) {
    && Settles(rows, out, Key(Source, [source]), State, "deleted", {}, map[DeletedAt := NOW])
    && (forall id | Link(id, source) in links.connections ::
          Settles(rows, out, Key(Connection, [id]), State, "detached", {"detached", "deleted"}, map[]))
    && (forall id | DocumentOf(links, source, id) ::
          Settles(rows, out, Key(Document, [id]), State, "deleted", {}, map[DeletedAt := NOW]))
    && (forall id | ChunkOf(links, source, id) ::
          Settles(rows, out, Key(Chunk, [id]), State, "tombstoned", {}, map[TombstonedAt := NOW]))
  }

  /** Graph nodes, evidence drawn from the chunks, and the claims and relations it supports. */
  ghost predicate GraphStale(rows: Store, out: Store, links: Links, source: string) {
    && (forall id | NodeOf(links, source, id) ::
          Settles(rows, out, Key(GraphNode, [id]), Status, "stale", {"deleted", "rejected", "redirected"}, map[]))
    && (forall id | ClaimOf(links, source, id) ::
          Settles(rows, out, Key(Claim, [id]), Status, "stale", {"deleted", "rejected", "superseded"}, map[]))
    && (forall id | RelationOf(links, source, id) ::
          Settles(rows, out, Key(Relation, [id]), Status, "stale", {"deleted", "rejected", "deprecated"}, map[]))
    && EvidenceStale(rows, out, links, source, ClaimEvidence, links.claimEvidence)
    && EvidenceStale(rows, out, links, source, RelationEvidence, links.relationEvidence)
  }

  ghost predicate EvidenceStale(rows: Store, out: Store, links: Links, source: string, kind: Kind,
                                evidence: seq<EvidenceLink>)
  {
    forall e | e in evidence && ChunkOf(links, source, e.chunk) ::
      Settles(rows, out, Key(kind, [e.owner, e.evidence]), State, "stale", {}, map[])
  }

  /** Contexts that hold an item of the source, and the answers made from them. */
  ghost predicate AllInvalidated(rows: Store, out: Store, links: Links, source: string) {
    var extra := map[StaleAt := NOW, StaleReason := Text(Reason(source))];
    && (forall id | ContextOf(links, source, id) ::
          Settles(rows, out, Key(EvidenceContext, [id]), State, "stale", {}, extra))
    && (forall id | AnswerOf(links, source, id) ::
          Settles(rows, out, Key(Answer, [id]), CacheState, "stale", {}, extra))
  }

  /** The topic is up for review and its artifacts are stale; those of a topic that is gone are left. */
  ghost predicate TopicReviewed(rows: Store, out: Store, links: Links, topic: string, reason: string) {
    && Settles(rows, out, Key(Topic, [topic]), Status, "needs_review", {"deleted"},
               map[StaleAt := NOW, StaleReason := Text(reason)])
    && forall a | Link(a, topic) in links.artifacts ::
         if Key(Topic, [topic]) in rows && Lookup(rows[Key(Topic, [topic])], Status) != Text("deleted") then
           Settles(rows, out, Key(Artifact, [a]), Status, "stale", {"deleted"}, map[StaleReason := Text(reason)])
         else Unchanged(rows, out, Key(Artifact, [a]))
  }

  ghost predicate AllTopicsReviewed(rows: Store, out: Store, links: Links, source: string) {
    forall t | TopicOf(links, source, t) :: TopicReviewed(rows, out, links, t, Reason(source))
  }

  /** The rows that rest on the source. */
  ghost predicate RestsOn(links: Links, source: string, k: Key) {
    match k.kind
    case Source => k.ids == [source]
    case Connection => exists id :: Link(id, source) in links.connections && k.ids == [id]
    case Document => exists id :: DocumentOf(links, source, id) && k.ids == [id]
    case Chunk => exists id :: ChunkOf(links, source, id) && k.ids == [id]
    case GraphNode => exists id :: NodeOf(links, source, id) && k.ids == [id]
    case ClaimEvidence => RestingEvidence(links, source, links.claimEvidence, k.ids)
    case RelationEvidence => RestingEvidence(links, source, links.relationEvidence, k.ids)
    case Claim => exists id :: ClaimOf(links, source, id) && k.ids == [id]
    case Relation => exists id :: RelationOf(links, source, id) && k.ids == [id]
    case EvidenceContext => exists id :: ContextOf(links, source, id) && k.ids == [id]
    case Answer => exists id :: AnswerOf(links, source, id) && k.ids == [id]
    case Topic => exists id :: TopicOf(links, source, id) && k.ids == [id]
    case Artifact => exists t, a :: TopicOf(links, source, t) && Link(a, t) in links.artifacts && k.ids == [a]
    case _ => false
  }

  ghost predicate RestingEvidence(links: Links, source: string, evidence: seq<EvidenceLink>, ids: seq<string>) {
    exists e :: e in evidence && ChunkOf(links, source, e.chunk) && ids == [e.owner, e.evidence]
  }

  ghost predicate AllSettled(rows: Store, out: Store, cells: seq<Cell>) {
    forall c | c in cells :: Settled(rows, out, c)
  }

  ghost predicate RowSettles(rows: Store, out: Store, c: Cell) {
    Settles(rows, out, KeyOfCell(c), c.field, c.value, c.skip, c.extra)
  }

  lemma OneSettles(rows: Store, out: Store, ids: seq<string>, make: string -> Cell, id: string)
    requires AllSettled(rows, out, EachCell(ids, make)) && id in ids
    ensures RowSettles(rows, out, make(id))
  {
    MakesIn(ids, make, id);
    assert Settled(rows, out, make(id));
  }

  lemma ContentFollows(rows: Store, out: Store, links: Links, source: string)
    requires AllSettled(rows, out, [SourceCell(source)])
    requires AllSettled(rows, out, EachCell(Referring(links.connections, {source}), ConnectionCell))
    requires AllSettled(rows, out, EachCell(DocumentsOf(links, source), DocumentCell))
    requires AllSettled(rows, out, EachCell(ChunksOf(links, source), ChunkCell))
    ensures ContentGone(rows, out, links, source)
  {
    assert Settled(rows, out, SourceCell(source));
    forall id | Link(id, source) in links.connections ensures RowSettles(rows, out, ConnectionCell(id)) {
      RefersToOne(links.connections, source, id);
      OneSettles(rows, out, Referring(links.connections, {source}), ConnectionCell, id);
    }
    forall id | DocumentOf(links, source, id) ensures RowSettles(rows, out, DocumentCell(id)) {
      RefersToOne(links.documents, source, id);
      OneSettles(rows, out, DocumentsOf(links, source), DocumentCell, id);
    }
    forall id | ChunkOf(links, source, id) ensures RowSettles(rows, out, ChunkCell(id)) {
      ChunksAre(links, source, id);
      OneSettles(rows, out, ChunksOf(links, source), ChunkCell, id);
    }
  }

  lemma MakesIn(ids: seq<string>, make: string -> Cell, id: string)
    requires id in ids
    ensures make(id) in EachCell(ids, make)
  {
    var i :| 0 <= i < |ids| && ids[i] == id;
    assert EachCell(ids, make)[i] == make(id);
  }

  lemma EvidenceFollows(rows: Store, out: Store, links: Links, source: string, kind: Kind, evidence: seq<EvidenceLink>)
    requires AllSettled(rows, out, EachEvidenceCell(kind, EvidenceIn(evidence, Members(ChunksOf(links, source)))))
    ensures EvidenceStale(rows, out, links, source, kind, evidence)
  {
    var found := EvidenceIn(evidence, Members(ChunksOf(links, source)));
    forall e | e in evidence && ChunkOf(links, source, e.chunk) ensures RowSettles(rows, out, EvidenceCell(kind, e)) {
      ChunksAre(links, source, e.chunk);
      EvidenceInMeans(evidence, Members(ChunksOf(links, source)), e);
      var i :| 0 <= i < |found| && found[i] == e;
      assert EachEvidenceCell(kind, found)[i] == EvidenceCell(kind, e);
      assert Settled(rows, out, EvidenceCell(kind, e));
    }
  }

  lemma GraphFollows(rows: Store, out: Store, links: Links, source: string)
    requires AllSettled(rows, out, EachCell(NodesOf(links, source), NodeCell))
    requires AllSettled(rows, out, EachEvidenceCell(ClaimEvidence, ClaimEvidenceOf(links, source)))
    requires AllSettled(rows, out, EachEvidenceCell(RelationEvidence, RelationEvidenceOf(links, source)))
    requires AllSettled(rows, out, EachCell(ClaimsOf(links, source), ClaimCell))
    requires AllSettled(rows, out, EachCell(RelationsOf(links, source), RelationCell))
    ensures GraphStale(rows, out, links, source)
  {
    EvidenceFollows(rows, out, links, source, ClaimEvidence, links.claimEvidence);
    EvidenceFollows(rows, out, links, source, RelationEvidence, links.relationEvidence);
    forall id | NodeOf(links, source, id) ensures RowSettles(rows, out, NodeCell(id)) {
      NodesAre(links, source, id);
      OneSettles(rows, out, NodesOf(links, source), NodeCell, id);
    }
    forall id | ClaimOf(links, source, id) ensures RowSettles(rows, out, ClaimCell(id)) {
      OwnersAre(links, source, links.claimEvidence, id);
      OneSettles(rows, out, ClaimsOf(links, source), ClaimCell, id);
    }
    forall id | RelationOf(links, source, id) ensures RowSettles(rows, out, RelationCell(id)) {
      OwnersAre(links, source, links.relationEvidence, id);
      OneSettles(rows, out, RelationsOf(links, source), RelationCell, id);
    }
  }

  lemma InvalidationFollows(rows: Store, out: Store, links: Links, source: string)
    requires AllSettled(rows, out, ContextCells(ContextsOf(links, source), Reason(source)))
    requires AllSettled(rows, out, AnswerCells(AnswersOf(links, source), Reason(source)))
    ensures AllInvalidated(rows, out, links, source)
  {
    var reason := Reason(source);
    forall id | ContextOf(links, source, id) ensures RowSettles(rows, out, ContextCell(id, reason)) {
      ContextsAre(links, source, id);
      OneSettles(rows, out, ContextsOf(links, source), x => ContextCell(x, reason), id);
    }
    forall id | AnswerOf(links, source, id) ensures RowSettles(rows, out, AnswerCell(id, reason)) {
      AnswersAre(links, source, id);
      OneSettles(rows, out, AnswersOf(links, source), x => AnswerCell(x, reason), id);
    }
  }

  /** No cell of the list speaks of the topic or of one of its artifacts. */
  ghost predicate LeavesTopic(links: Links, cells: seq<Cell>, t: string) {
    forall c | c in cells ::
      KeyOfCell(c) != Key(Topic, [t]) && forall a | a in ArtifactsOf(links, t) :: KeyOfCell(c) != Key(Artifact, [a])
  }

  lemma EarlierKindsLeaveTopic(links: Links, cells: seq<Cell>, t: string)
    requires forall c | c in cells :: !c.kind.Topic? && !c.kind.Artifact?
    ensures LeavesTopic(links, cells, t)
  {
  }

  lemma BothLeaveTopic(links: Links, a: seq<Cell>, b: seq<Cell>, t: string)
    requires LeavesTopic(links, a, t) && LeavesTopic(links, b, t)
    ensures LeavesTopic(links, a + b, t)
  {
  }

  lemma TopicCellsLeaveGoneTopic(rows: Store, links: Links, topics: seq<string>, reason: string, t: string)
    requires UniqueIds(links.artifacts) && TopicGone(rows, t)
    ensures LeavesTopic(links, TopicCells(rows, links, topics, reason, true), t)
  {
    forall c | c in TopicCells(rows, links, topics, reason, true)
      ensures KeyOfCell(c) != Key(Topic, [t]) && forall a | a in ArtifactsOf(links, t) :: KeyOfCell(c) != Key(Artifact, [a])
    {
      GoneTopicHasNoCells(rows, links, topics, reason, t, c);
    }
  }

  lemma GoneTopicFollows(rows: Store, out: Store, links: Links, cells: seq<Cell>, t: string, reason: string)
    requires TopicGone(rows, t) && Cascaded(rows, out, cells) && LeavesTopic(links, cells, t)
    ensures TopicReviewed(rows, out, links, t, reason)
  {
    assert Unchanged(rows, out, Key(Topic, [t]));
    forall a | Link(a, t) in links.artifacts ensures Unchanged(rows, out, Key(Artifact, [a])) {
      RefersToOne(links.artifacts, t, a);
    }
  }

  lemma LiveTopicFollows(rows: Store, out: Store, links: Links, topic: string, reason: string)
    requires !TopicGone(rows, topic)
    requires AllSettled(rows, out, OneTopicCells(rows, links, topic, reason, true))
    ensures TopicReviewed(rows, out, links, topic, reason)
  {
    var own := OneTopicCells(rows, links, topic, reason, true);
    var cell := TopicCell(topic, reason, true);
    assert own[0] == cell && cell in own;
    assert RowSettles(rows, out, cell);
    var ids := ArtifactsOf(links, topic);
    forall a | Link(a, topic) in links.artifacts ensures RowSettles(rows, out, ArtifactCell(a, reason)) {
      RefersToOne(links.artifacts, topic, a);
      var i :| 0 <= i < |ids| && ids[i] == a;
      assert own[i + 1] == ArtifactCell(a, reason) && ArtifactCell(a, reason) in own;
    }
  }

  /** A plan that ends with the changes of these topics settles each of them. */
  lemma TopicFollows(rows: Store, out: Store, links: Links, direct: seq<Cell>, topics: seq<string>, reason: string, t: string)
    requires UniqueIds(links.artifacts) && NoDuplicates(topics) && "" !in topics && t in topics
    requires forall c | c in direct :: !c.kind.Topic? && !c.kind.Artifact?
    requires Cascaded(rows, out, direct + TopicCells(rows, links, topics, reason, true))
    ensures TopicReviewed(rows, out, links, t, reason)
  {
    var below := TopicCells(rows, links, topics, reason, true);
    if TopicGone(rows, t) {
      EarlierKindsLeaveTopic(links, direct, t);
      TopicCellsLeaveGoneTopic(rows, links, topics, reason, t);
      BothLeaveTopic(links, direct, below, t);
      GoneTopicFollows(rows, out, links, direct + below, t, reason);
    } else {
      TopicCellsAreGood(rows, links, topics, reason, true);
      assert forall c | c in below :: c in direct + below;
      LiveTopicFollows(rows, out, links, t, reason);
    }
  }

  lemma TopicsFollow(rows: Store, out: Store, links: Links, direct: seq<Cell>, topics: seq<string>, reason: string)
    requires UniqueIds(links.artifacts) && NoDuplicates(topics) && "" !in topics
    requires forall c | c in direct :: Rank(c.kind) < 11
    requires Cascaded(rows, out, direct + TopicCells(rows, links, topics, reason, true))
    ensures forall t | t in topics :: TopicReviewed(rows, out, links, t, reason)
  {
    forall t | t in topics ensures TopicReviewed(rows, out, links, t, reason) {
      TopicFollows(rows, out, links, direct, topics, reason, t);
    }
  }

  lemma AllTopicsFollow(rows: Store, out: Store, links: Links, source: string)
    requires WellLinked(links) && source != ""
    requires Cascaded(rows, out, SourceCells(rows, links, source))
    ensures AllTopicsReviewed(rows, out, links, source)
  {
    var direct, topics := Flatten(DirectCells(links, source)), TopicsOf(links, source);
    assert Cascaded(rows, out, direct + TopicCells(rows, links, topics, Reason(source), true));
    DirectCellsRank(links, source);
    assert NoDuplicates(topics) && "" !in topics by {
      SortedIdsAreUnique(links, source);
    }
    TopicsFollow(rows, out, links, direct, topics, Reason(source));
    forall t | TopicOf(links, source, t) ensures TopicReviewed(rows, out, links, t, Reason(source)) {
      TopicsAre(links, source, t);
    }
  }

  /** No cell is made for a topic passed over, nor for its artifacts. */
  lemma {:induction false} GoneTopicHasNoCells(rows: Store, links: Links, topics: seq<string>, reason: string, t: string, c: Cell)
    requires UniqueIds(links.artifacts) && TopicGone(rows, t)
    requires c in TopicCells(rows, links, topics, reason, true)
    ensures c.kind.Topic? ==> c.selector != [t]
    ensures c.kind.Artifact? ==> forall a | a in ArtifactsOf(links, t) :: c.selector != [a]
    decreases |topics|
  {
    var init, last := topics[..|topics| - 1], topics[|topics| - 1];
    if c in TopicCells(rows, links, init, reason, true) {
      GoneTopicHasNoCells(rows, links, init, reason, t, c);
    } else {
      assert c in OneTopicCells(rows, links, last, reason, true);
      assert last != t;
      if c.kind.Artifact? {
        var ids := ArtifactsOf(links, last);
        var i :| 0 <= i < |ids| && ArtifactCells(ids, reason)[i] == c;
        assert c.selector == [ids[i]] && ids[i] in ids;
        forall a | a in ArtifactsOf(links, t) ensures c.selector != [a] {
          assert c.selector[0] == ids[i];
          if a == ids[i] {
            ArtifactHasOneTopic(links, t, last, a);
          }
        }
      } else {
        assert c.selector[0] == last;
      }
    }
  }

  // ---- nothing else changes ----

  lemma MadeFrom(ids: seq<string>, make: string -> Cell, c: Cell) returns (id: string)
    requires c in EachCell(ids, make)
    ensures id in ids && c == make(id)
  {
    var i :| 0 <= i < |ids| && EachCell(ids, make)[i] == c;
    id := ids[i];
  }

  lemma ContentCellRestsOn(links: Links, source: string, c: Cell)
    requires || c == SourceCell(source)
             || c in EachCell(Referring(links.connections, {source}), ConnectionCell)
             || c in EachCell(DocumentsOf(links, source), DocumentCell)
             || c in EachCell(ChunksOf(links, source), ChunkCell)
    ensures RestsOn(links, source, KeyOfCell(c))
  {
    if c in EachCell(Referring(links.connections, {source}), ConnectionCell) {
      var id := MadeFrom(Referring(links.connections, {source}), ConnectionCell, c);
      RefersToOne(links.connections, source, id);
    } else if c in EachCell(DocumentsOf(links, source), DocumentCell) {
      var id := MadeFrom(DocumentsOf(links, source), DocumentCell, c);
      RefersToOne(links.documents, source, id);
    } else if c in EachCell(ChunksOf(links, source), ChunkCell) {
      var id := MadeFrom(ChunksOf(links, source), ChunkCell, c);
      ChunksAre(links, source, id);
    }
  }

  lemma EvidenceCellRestsOn(links: Links, source: string, kind: Kind, evidence: seq<EvidenceLink>, c: Cell)
    requires c in EachEvidenceCell(kind, EvidenceIn(evidence, Members(ChunksOf(links, source))))
    ensures KeyOfCell(c).kind == kind && RestingEvidence(links, source, evidence, KeyOfCell(c).ids)
  {
    var found := EvidenceIn(evidence, Members(ChunksOf(links, source)));
    var i :| 0 <= i < |found| && EachEvidenceCell(kind, found)[i] == c;
    assert found[i] in found;
    EvidenceInMeans(evidence, Members(ChunksOf(links, source)), found[i]);
    ChunksAre(links, source, found[i].chunk);
  }

  lemma GraphCellRestsOn(links: Links, source: string, c: Cell)
    requires || c in EachCell(NodesOf(links, source), NodeCell)
             || c in EachEvidenceCell(ClaimEvidence, ClaimEvidenceOf(links, source))
             || c in EachEvidenceCell(RelationEvidence, RelationEvidenceOf(links, source))
             || c in EachCell(ClaimsOf(links, source), ClaimCell)
             || c in EachCell(RelationsOf(links, source), RelationCell)
    ensures RestsOn(links, source, KeyOfCell(c))
  {
    if c in EachCell(NodesOf(links, source), NodeCell) {
      var id := MadeFrom(NodesOf(links, source), NodeCell, c);
      NodesAre(links, source, id);
    } else if c in EachEvidenceCell(ClaimEvidence, ClaimEvidenceOf(links, source)) {
      EvidenceCellRestsOn(links, source, ClaimEvidence, links.claimEvidence, c);
    } else if c in EachEvidenceCell(RelationEvidence, RelationEvidenceOf(links, source)) {
      EvidenceCellRestsOn(links, source, RelationEvidence, links.relationEvidence, c);
    } else if c in EachCell(ClaimsOf(links, source), ClaimCell) {
      var id := MadeFrom(ClaimsOf(links, source), ClaimCell, c);
      OwnersAre(links, source, links.claimEvidence, id);
    } else {
      var id := MadeFrom(RelationsOf(links, source), RelationCell, c);
      OwnersAre(links, source, links.relationEvidence, id);
    }
  }

  lemma DownstreamCellRestsOn(links: Links, source: string, c: Cell)
    requires || c in ContextCells(ContextsOf(links, source), Reason(source))
             || c in AnswerCells(AnswersOf(links, source), Reason(source))
    ensures RestsOn(links, source, KeyOfCell(c))
  {
    var reason := Reason(source);
    if c in ContextCells(ContextsOf(links, source), reason) {
      var id := MadeFrom(ContextsOf(links, source), x => ContextCell(x, reason), c);
      ContextsAre(links, source, id);
    } else {
      var id := MadeFrom(AnswersOf(links, source), x => AnswerCell(x, reason), c);
      AnswersAre(links, source, id);
    }
  }

  lemma FirstPartsAre(links: Links, source: string, i: nat, c: Cell)
    requires i < 4 && c in DirectCells(links, source)[i]
    ensures || c == SourceCell(source)
            || c in EachCell(Referring(links.connections, {source}), ConnectionCell)
            || c in EachCell(DocumentsOf(links, source), DocumentCell)
            || c in EachCell(ChunksOf(links, source), ChunkCell)
  {
  }

  lemma MiddlePartsAre(links: Links, source: string, i: nat, c: Cell)
    requires 4 <= i < 9 && c in DirectCells(links, source)[i]
    ensures || c in EachCell(NodesOf(links, source), NodeCell)
            || c in EachEvidenceCell(ClaimEvidence, ClaimEvidenceOf(links, source))
            || c in EachEvidenceCell(RelationEvidence, RelationEvidenceOf(links, source))
            || c in EachCell(ClaimsOf(links, source), ClaimCell)
            || c in EachCell(RelationsOf(links, source), RelationCell)
  {
  }

  lemma DirectCellRestsOn(links: Links, source: string, i: nat, c: Cell)
    requires i < 11 && c in DirectCells(links, source)[i]
    ensures RestsOn(links, source, KeyOfCell(c))
  {
    if i < 4 {
      FirstPartsAre(links, source, i, c);
      ContentCellRestsOn(links, source, c);
    } else if i < 9 {
      MiddlePartsAre(links, source, i, c);
      GraphCellRestsOn(links, source, c);
    } else {
      DownstreamCellRestsOn(links, source, c);
    }
  }

  lemma TopicCellRestsOn(links: Links, source: string, c: Cell)
    requires TopicOrArtifactOf(links, TopicsOf(links, source), c)
    ensures RestsOn(links, source, KeyOfCell(c))
  {
    if c.kind.Topic? {
      var t :| t in TopicsOf(links, source) && c.selector == [t];
      TopicsAre(links, source, t);
    } else {
      var t, a :| t in TopicsOf(links, source) && a in ArtifactsOf(links, t) && c.selector == [a];
      TopicsAre(links, source, t);
      RefersToOne(links.artifacts, t, a);
    }
  }

  lemma CellRestsOn(rows: Store, links: Links, source: string, c: Cell)
    requires WellLinked(links) && source != "" && c in SourceCells(rows, links, source)
    ensures RestsOn(links, source, KeyOfCell(c))
  {
    DirectCellsAreParts(links, source);
    if c in Flatten(DirectCells(links, source)) {
      var i :| 0 <= i < 11 && c in DirectCells(links, source)[i];
      DirectCellRestsOn(links, source, i, c);
    } else {
      SortedIdsAreUnique(links, source);
      TopicCellsAreGood(rows, links, TopicsOf(links, source), Reason(source), true);
      TopicCellRestsOn(links, source, c);
    }
  }

  // ---- main results ----

  /** The database a source is deleted from: schema, references, and the source itself. */
  ghost predicate Deletable(rows: Store, links: Links, source: string) {
    && SchemaStore(rows) && WellLinked(links)
    && source != "" && Key(Source, [source]) in rows
    && Lookup(rows[Key(Source, [source])], State) != Text("deleted")
  }

  function SourceDeletePlan(rows: Store, links: Links, source: string): seq<Change> {
    MakeChanges(rows, SourceCells(rows, links, source))
  }

  ghost predicate OnlyRestingRowsChange(rows: Store, out: Store, links: Links, source: string) {
    && out.Keys == rows.Keys
    && forall k | k in rows && out[k] != rows[k] :: RestsOn(links, source, k)
  }

  lemma DirectPartsSettle(rows: Store, out: Store, links: Links, source: string)
    requires WellLinked(links) && source != ""
    requires Cascaded(rows, out, SourceCells(rows, links, source))
    ensures forall i | 0 <= i < 11 :: AllSettled(rows, out, DirectCells(links, source)[i])
  {
    DirectCellsAreParts(links, source);
  }

  lemma ContentPartsFollow(rows: Store, out: Store, links: Links, source: string)
    requires forall i | 0 <= i < 11 :: AllSettled(rows, out, DirectCells(links, source)[i])
    ensures ContentGone(rows, out, links, source)
  {
    var parts := DirectCells(links, source);
    assert AllSettled(rows, out, parts[0]) && AllSettled(rows, out, parts[1]) && AllSettled(rows, out, parts[2])
           && AllSettled(rows, out, parts[3]);
    ContentFollows(rows, out, links, source);
  }

  lemma GraphPartsFollow(rows: Store, out: Store, links: Links, source: string)
    requires forall i | 0 <= i < 11 :: AllSettled(rows, out, DirectCells(links, source)[i])
    ensures GraphStale(rows, out, links, source)
  {
    var parts := DirectCells(links, source);
    assert AllSettled(rows, out, parts[4]) && AllSettled(rows, out, parts[5]) && AllSettled(rows, out, parts[6])
           && AllSettled(rows, out, parts[7]) && AllSettled(rows, out, parts[8]);
    GraphFollows(rows, out, links, source);
  }

  lemma InvalidatedPartsFollow(rows: Store, out: Store, links: Links, source: string)
    requires forall i | 0 <= i < 11 :: AllSettled(rows, out, DirectCells(links, source)[i])
    ensures AllInvalidated(rows, out, links, source)
  {
    var parts := DirectCells(links, source);
    assert AllSettled(rows, out, parts[9]) && AllSettled(rows, out, parts[10]);
    InvalidationFollows(rows, out, links, source);
  }

  /** What rests on the source is settled, kind by kind, and nothing else changes. */
  ghost predicate DeletionSettled(rows: Store, out: Store, links: Links, source: string) {
    && ContentGone(rows, out, links, source) && GraphStale(rows, out, links, source)
    && AllInvalidated(rows, out, links, source) && AllTopicsReviewed(rows, out, links, source)
    && OnlyRestingRowsChange(rows, out, links, source)
  }

  lemma ResultFollows(rows: Store, out: Store, links: Links, source: string)
    requires WellLinked(links) && source != ""
    requires Cascaded(rows, out, SourceCells(rows, links, source))
    ensures DeletionSettled(rows, out, links, source)
  {
    DirectPartsSettle(rows, out, links, source);
    ContentPartsFollow(rows, out, links, source);
    GraphPartsFollow(rows, out, links, source);
    InvalidatedPartsFollow(rows, out, links, source);
    AllTopicsFollow(rows, out, links, source);
    forall k | k in rows && out[k] != rows[k]
      ensures RestsOn(links, source, k)
    {
      var c :| c in SourceCells(rows, links, source) && KeyOfCell(c) == k;
      CellRestsOn(rows, links, source, c);
    }
  }

  /** A freshly made plan applies without conflict, settles everything that rests on the source
      and changes nothing else. */
  lemma SourceDeleteCascades(rows: Store, links: Links, source: string, now: Time)
    requires Deletable(rows, links, source)
    ensures Fresh(rows, SourceDeletePlan(rows, links, source))
    ensures ApplyAll(rows, SourceDeletePlan(rows, links, source), now).Success?
    ensures DeletionSettled(rows, ApplyAll(rows, SourceDeletePlan(rows, links, source), now).value.0, links, source)
  {
    SourceCellsAreGood(rows, links, source);
    FreshPlanCascades(rows, SourceCells(rows, links, source), now);
    ResultFollows(rows, ApplyAll(rows, SourceDeletePlan(rows, links, source), now).value.0, links, source);
  }

  /** Whenever it is applied to the rows it was made from, the plan deletes the source. */
  ghost predicate DeletesSource(plan: seq<Change>, rows: Store, links: Links, source: string) {
    forall now: Time :: ApplyAll(rows, plan, now).Success?
      && DeletionSettled(rows, ApplyAll(rows, plan, now).value.0, links, source)
  }

  /** describeSourceDelete: one pass over each table that may rest on the source. */
  method DescribeSourceDelete(rows: Store, links: Links, source: string) returns (r: Result<seq<Change>, PlannerError>)
    ensures Key(Source, [source]) !in rows ==> r == Failure(NotFound)
    ensures Key(Source, [source]) in rows && Lookup(rows[Key(Source, [source])], State) == Text("deleted") ==>
              r == Failure(AlreadyDeleted)
    ensures Key(Source, [source]) in rows && Lookup(rows[Key(Source, [source])], State) != Text("deleted") ==>
              r == Success(SourceDeletePlan(rows, links, source))
    ensures Deletable(rows, links, source) ==> r.Success? && DeletesSource(r.value, rows, links, source)
  {
    if Key(Source, [source]) !in rows {
      return Failure(NotFound);
    }
    if Lookup(rows[Key(Source, [source])], State) == Text("deleted") {
      return Failure(AlreadyDeleted);
    }
    var changes := [];
    var parts := DirectCells(links, source);
    for i := 0 to |parts|
      invariant changes == MakeChanges(rows, Flatten(parts[..i]))
    {
      FlattenPrefix(parts, i);
      MakeChangesConcat(rows, Flatten(parts[..i]), parts[i]);
      changes := AppendChanges(rows, parts[i], changes);
    }
    assert parts[..|parts|] == parts;
    var topics := TopicsOf(links, source);
    var downstream, _ := TopicAndArtifactChanges(rows, links, topics, Reason(source), true);
    SortedIsCanonical(UniqueSorted(topics), topics);
    MakeChangesConcat(rows, Flatten(parts), TopicCells(rows, links, topics, Reason(source), true));
    forall now: Time | Deletable(rows, links, source)
      ensures ApplyAll(rows, SourceDeletePlan(rows, links, source), now).Success?
      ensures DeletionSettled(rows, ApplyAll(rows, SourceDeletePlan(rows, links, source), now).value.0, links, source)
    {
      SourceDeleteCascades(rows, links, source, now);
    }
    return Success(changes + downstream);
  }
  function AppliedRows(rows: Store, plan: seq<Change>, now: string): Store {
    match ApplyAll(rows, plan, now)
    case Success((out, _)) => out
    case Failure(_) => rows
  }

  ghost predicate BroughtBack(rows: Store, last: Store, plan: seq<Change>, k: Key) {
    && k in rows && k in last
    && if Touches(plan, k) then
         && SameExcept(rows[k], last[k], VersionColumnOf(k.kind))
         && (VersionColumnOf(k.kind).Some? ==> VersionAt(last, k) == VersionAt(rows, k) + 2)
       else last[k] == rows[k]
  }

  lemma PlanBringsBack(rows: Store, plan: seq<Change>, t1: Time, t2: Time, k: Key)
    requires Distinct(plan) && AllGood(plan) && k in rows
    requires forall i | 0 <= i < |plan| :: NOW !in plan[i].before.Values
    requires ApplyAll(rows, plan, t1).Success?
    ensures ApplyAll(AppliedRows(rows, plan, t1), UndoPlan(plan, t1), t2).Success?
    ensures BroughtBack(rows, AppliedRows(AppliedRows(rows, plan, t1), UndoPlan(plan, t1), t2), plan, k)
  {
    UndoInverts(rows, plan, t1, t2);
    if Touches(plan, k) {
      var c :| c in plan && TargetOf(c) == k;
      var i :| 0 <= i < |plan| && plan[i] == c;
      PlannedChangesUndo(rows, plan, t1, t2, i);
    }
  }

  /** Restoring the source right after brings every row back: all columns but updated_at and the
      version, which is two higher on the rows the deletion wrote. */
  lemma RestoreBringsAllBack(rows: Store, links: Links, source: string, t1: Time, t2: Time, k: Key)
    requires Deletable(rows, links, source) && k in rows
    ensures var plan := SourceDeletePlan(rows, links, source);
      && ApplyAll(rows, plan, t1).Success?
      && Reverse(ApplyAll(rows, plan, t1).value.1) == Success(UndoPlan(plan, t1))
      && ApplyAll(AppliedRows(rows, plan, t1), UndoPlan(plan, t1), t2).Success?
      && BroughtBack(rows, AppliedRows(AppliedRows(rows, plan, t1), UndoPlan(plan, t1), t2), plan, k)
  {
    var plan := SourceDeletePlan(rows, links, source);
    SourceDeleteCascades(rows, links, source, t1);
    SourceCellsAreGood(rows, links, source);
    MadeChangesAreFresh(rows, SourceCells(rows, links, source));
    UndoGoesThrough(rows, plan, t1, t2);
    PlanBringsBack(rows, plan, t1, t2, k);
  }
}
