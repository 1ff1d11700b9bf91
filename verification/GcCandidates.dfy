/** What garbage collection may take (collectCandidates in gc.ts): blobs nothing refers to,
    stale embeddings of retired spaces, and old temporary files. */
module GcCandidates {
  import opened Outcomes
  import opened GcProtocol
  import opened GcWorkspace

  datatype Blob = Blob(sha256: string, path: string)

  datatype SpaceState = Building | Verifying | Ready | FailedState | Deprecated | Deleted

  datatype Embedding = Embedding(id: string, stale: bool, space: SpaceState)

  datatype TempFile = TempFile(path: string, modified: int)

  /** The tables the query reads; the four lists hold the blob each referring row names. */
  datatype Catalog = Catalog(
    blobs: seq<Blob>, snapshotEntries: seq<string>, revisions: seq<string>,
    contextItems: seq<string>, topicCitations: seq<string>, embeddings: seq<Embedding>)

  datatype Candidate =
    | UnreferencedBlob(blob: Blob)
    | StaleEmbedding(id: string)
    | ExpiredTemporary(path: string)

  function Count(refs: seq<string>, sha256: string): nat {
    if refs == [] then 0 else (if refs[0] == sha256 then 1 else 0) + Count(refs[1..], sha256)
  }

  lemma {:induction false} CountZero(refs: seq<string>, sha256: string)
    ensures Count(refs, sha256) == 0 <==> sha256 !in refs
  {
    if refs != [] {
      assert refs == [refs[0]] + refs[1..];
      CountZero(refs[1..], sha256);
    }
  }

  ghost predicate Referenced(c: Catalog, sha256: string) {
    sha256 in c.snapshotEntries || sha256 in c.revisions || sha256 in c.contextItems || sha256 in c.topicCitations
  }

  ghost predicate BlobIsGarbage(c: Catalog, rows: set<RowId>, live: map<string, string>, b: Blob) {
    b in c.blobs && BlobRow(b.sha256) in rows && !Referenced(c, b.sha256) && b.path in live
  }

  ghost predicate EmbeddingIsGarbage(c: Catalog, rows: set<RowId>, id: string) {
    exists e :: e in c.embeddings && e.id == id && EmbeddingRow(id) in rows
      && e.stale && (e.space.Deprecated? || e.space.Deleted?)
  }

  ghost predicate IsCandidate(c: Catalog, rows: set<RowId>, live: map<string, string>, temps: seq<TempFile>,
                              threshold: int, x: Candidate) {
    match x
    case UnreferencedBlob(b) => BlobIsGarbage(c, rows, live, b)
    case StaleEmbedding(id) => EmbeddingIsGarbage(c, rows, id)
    case ExpiredTemporary(path) => exists t :: t in temps && t.path == path && t.modified <= threshold
  }

  /** One pass over blobs, one over embeddings, one over temporary files.  `temps` are the regular
      files of runtime/tmp outside staging directories. */
  method CollectCandidates(c: Catalog, rows: set<RowId>, live: map<string, string>, temps: seq<TempFile>, threshold: int)
    returns (found: seq<Candidate>)
    ensures forall x :: x in found <==> IsCandidate(c, rows, live, temps, threshold, x)
  {
    found := [];
    for i := 0 to |c.blobs|
      invariant forall x | x in found :: x.UnreferencedBlob? && IsCandidate(c, rows, live, temps, threshold, x)
      invariant forall j | 0 <= j < i && BlobIsGarbage(c, rows, live, c.blobs[j]) :: UnreferencedBlob(c.blobs[j]) in found
    {
      var blob := c.blobs[i];
      CountZero(c.snapshotEntries, blob.sha256);
      CountZero(c.revisions, blob.sha256);
      CountZero(c.contextItems, blob.sha256);
      CountZero(c.topicCitations, blob.sha256);
      if BlobRow(blob.sha256) in rows
         && Count(c.snapshotEntries, blob.sha256) == 0 && Count(c.revisions, blob.sha256) == 0
         && Count(c.contextItems, blob.sha256) == 0 && Count(c.topicCitations, blob.sha256) == 0
         && blob.path in live
      {
        found := found + [UnreferencedBlob(blob)];
      }
    }
    ghost var blobs := found;
    for i := 0 to |c.embeddings|
      invariant blobs <= found
      invariant forall x | x in found ::
                  (x.UnreferencedBlob? || x.StaleEmbedding?) && IsCandidate(c, rows, live, temps, threshold, x)
      invariant forall j | 0 <= j < i && EmbeddingRow(c.embeddings[j].id) in rows && c.embeddings[j].stale
                           && (c.embeddings[j].space.Deprecated? || c.embeddings[j].space.Deleted?) ::
                  StaleEmbedding(c.embeddings[j].id) in found
    {
      var e := c.embeddings[i];
      if EmbeddingRow(e.id) in rows && e.stale && (e.space.Deprecated? || e.space.Deleted?) {
        found := found + [StaleEmbedding(e.id)];
      }
    }
    ghost var both := found;
    for i := 0 to |temps|
      invariant both <= found
      invariant forall x | x in found :: IsCandidate(c, rows, live, temps, threshold, x)
      invariant forall j | 0 <= j < i && temps[j].modified <= threshold :: ExpiredTemporary(temps[j].path) in found
    {
      if temps[i].modified <= threshold {
        found := found + [ExpiredTemporary(temps[i].path)];
      }
    }
    assert forall x | x in blobs :: x in found;
    assert forall x | x in both :: x in found;
  }

  function PathOf(x: Candidate): Option<string> {
    match x
    case UnreferencedBlob(b) => Some(b.path)
    case StaleEmbedding(_) => None
    case ExpiredTemporary(path) => Some(path)
  }

  function RowOf(x: Candidate): Option<RowId> {
    match x
    case UnreferencedBlob(b) => Some(BlobRow(b.sha256))
    case StaleEmbedding(id) => Some(EmbeddingRow(id))
    case ExpiredTemporary(_) => None
  }

  function Paths(found: seq<Candidate>): (paths: seq<string>)
    ensures forall p :: p in paths <==> exists x :: x in found && PathOf(x) == Some(p)
  {
    if found == [] then []
    else
      assert found == [found[0]] + found[1..];
      (if PathOf(found[0]).Some? then [PathOf(found[0]).value] else []) + Paths(found[1..])
  }

  function PlanOf(found: seq<Candidate>): GcPlan {
    GcPlan(Paths(found), set x | x in found && RowOf(x).Some? :: RowOf(x).value)
  }

  /** A blob row has one path, and no blob is kept among the temporary files. */
  ghost predicate BlobsKeptApart(c: Catalog, temps: seq<TempFile>) {
    && (forall a, b | a in c.blobs && b in c.blobs && (a.sha256 == b.sha256 || a.path == b.path) :: a == b)
    && (forall a, t | a in c.blobs && t in temps :: a.path != t.path)
  }

  /** Whether or not a run got as far as committing, every blob something refers to still has
      its row and its file once a recovery has run to its end. */
  lemma ReferencedBlobsSurvive(c: Catalog, temps: seq<TempFile>, threshold: int, found: seq<Candidate>,
                               run: seq<State>, i: nat, b: Blob)
    requires BlobsKeptApart(c, temps)
    requires Run(PlanOf(found), run) && i < |run| && run[i].pc.Recovered?
    requires forall x :: x in found <==> IsCandidate(c, run[0].rows, run[0].live, temps, threshold, x)
    requires b in c.blobs && BlobRow(b.sha256) in run[0].rows && b.path in run[0].live && Referenced(c, b.sha256)
    ensures BlobRow(b.sha256) in run[i].rows
    ensures b.path in run[i].live && run[i].live[b.path] == run[0].live[b.path]
  {
    RecoveryIsAtomic(PlanOf(found), run, i);
    forall x | x in found
      ensures PathOf(x) != Some(b.path) && RowOf(x) != Some(BlobRow(b.sha256))
    {
      assert IsCandidate(c, run[0].rows, run[0].live, temps, threshold, x);
    }
    assert b.path !in Listed(PlanOf(found).files);
  }

  lemma CandidateRowIsPresent(c: Catalog, rows: set<RowId>, live: map<string, string>, temps: seq<TempFile>,
                              threshold: int, x: Candidate)
    ensures IsCandidate(c, rows, live, temps, threshold, x) && !x.ExpiredTemporary? ==>
              RowOf(x).Some? && RowOf(x).value in rows
  {
  }

  /** After a commit, collecting again finds no blob and no embedding. */
  lemma CollectingAgainFindsNothing(c: Catalog, temps: seq<TempFile>, threshold: int, found: seq<Candidate>,
                                    run: seq<State>, i: nat, laterTemps: seq<TempFile>, laterThreshold: int, x: Candidate)
    requires Run(PlanOf(found), run) && i < |run| && run[i].pc.Recovered? && run[i].committed
    requires forall y :: y in found <==> IsCandidate(c, run[0].rows, run[0].live, temps, threshold, y)
    ensures IsCandidate(c, run[i].rows, run[i].live, laterTemps, laterThreshold, x) ==> x.ExpiredTemporary?
  {
    RecoveryIsAtomic(PlanOf(found), run, i);
    var again := IsCandidate(c, run[i].rows, run[i].live, laterTemps, laterThreshold, x) && !x.ExpiredTemporary?;
    assert again ==> IsCandidate(c, run[0].rows, run[0].live, temps, threshold, x);
    assert x in found && RowOf(x).Some? ==> RowOf(x).value in PlanOf(found).doomed;
    CandidateRowIsPresent(c, run[i].rows, run[i].live, laterTemps, laterThreshold, x);
  }

  predicate TakesFile(x: Candidate, path: string) {
    x == ExpiredTemporary(path) || (x.UnreferencedBlob? && x.blob.path == path)
  }

  predicate TakesRow(x: Candidate, row: RowId) {
    (x.UnreferencedBlob? && row == BlobRow(x.blob.sha256)) || (x.StaleEmbedding? && row == EmbeddingRow(x.id))
  }

  /** A blob goes with its row and its file, an embedding with its row, a temporary file as a file; every
      other file and row is as it was. */
  ghost predicate CandidatesGone(found: seq<Candidate>, first: State, last: State) {
    && (forall b | UnreferencedBlob(b) in found :: b.path !in last.live && BlobRow(b.sha256) !in last.rows)
    && (forall id | StaleEmbedding(id) in found :: EmbeddingRow(id) !in last.rows)
    && (forall path | ExpiredTemporary(path) in found :: path !in last.live)
    && (forall path: string | !exists x :: x in found && TakesFile(x, path) ::
          (path in last.live <==> path in first.live) && (path in first.live ==> last.live[path] == first.live[path]))
    && (forall row: RowId | !exists x :: x in found && TakesRow(x, row) :: row in last.rows <==> row in first.rows)
  }

  lemma {:induction false} PlanTakes(found: seq<Candidate>, path: string, row: RowId)
    ensures path in Listed(PlanOf(found).files) <==> exists x :: x in found && TakesFile(x, path)
    ensures row in PlanOf(found).doomed <==> exists x :: x in found && TakesRow(x, row)
  {
    forall x: Candidate ensures TakesFile(x, path) <==> PathOf(x) == Some(path) {
    }
    forall x: Candidate ensures TakesRow(x, row) <==> RowOf(x) == Some(row) {
    }
  }

  /** From the commit on, whatever crashes and recoveries follow, the candidates the plan was made from are
      gone, and nothing else is. */
  lemma {:induction false} CollectedAreGone(found: seq<Candidate>, run: seq<State>, i: nat)
    requires Run(PlanOf(found), run) && i < |run| && run[i].committed
    ensures CandidatesGone(found, run[0], run[i])
  {
    RunKeepsInv(PlanOf(found), run, i);
    forall path: string, row: RowId
      ensures path in Listed(PlanOf(found).files) <==> exists x :: x in found && TakesFile(x, path)
      ensures row in PlanOf(found).doomed <==> exists x :: x in found && TakesRow(x, row)
    {
      PlanTakes(found, path, row);
    }
    forall b | UnreferencedBlob(b) in found ensures b.path !in run[i].live && BlobRow(b.sha256) !in run[i].rows {
      assert TakesFile(UnreferencedBlob(b), b.path) && TakesRow(UnreferencedBlob(b), BlobRow(b.sha256));
    }
    forall id | StaleEmbedding(id) in found ensures EmbeddingRow(id) !in run[i].rows {
      assert TakesRow(StaleEmbedding(id), EmbeddingRow(id));
    }
    forall path | ExpiredTemporary(path) in found ensures path !in run[i].live {
      assert TakesFile(ExpiredTemporary(path), path);
    }
  }

  /** Applying the plan made from these candidates: when it succeeds they are gone and nothing else is,
      and when it fails or is refused the rows, and after a failure the files too, are as before. */
  method ApplyCandidates(found: seq<Candidate>, w: Workspace, faults: GcFaults) returns (ending: Ending)
    requires w.Valid() && (w.pc.Recovered? || w.pc.Down?) && w.plan == PlanOf(found)
    modifies w
    ensures w.Valid() && old(w.run) <= w.run
    ensures ending.Succeeded? ==> w.staging.None? && CandidatesGone(found, w.run[0], w.Snapshot())
    ensures ending.Failed? ==> w.staging.None? && w.live == w.run[0].live && w.rows == w.run[0].rows
    ensures ending.Refused? ==> w.rows == old(w.rows)
  {
    ending := w.ApplyGcPlan(faults);
    if ending.Succeeded? {
      CollectedAreGone(found, w.run, |w.run| - 1);
    }
  }
}
