/** Erasing a deleted source for good (source-purge-plan.ts, source-purge-apply.ts): its
    manifests and the blobs no other source uses are staged, its rows are deleted in one
    transaction, and an abort puts back every staged file whose way back is open. */
module SourcePurge {
  import opened Outcomes

  datatype SourceRow = SourceRow(deleted: bool, version: int, currentSnapshot: Option<string>)

  /** In the order of their sequence numbers. */
  datatype Snapshot = Snapshot(id: string, source: string, manifest: string)

  datatype Entry = Entry(snapshot: string, logicalPath: string, blob: string)

  /** In the order of their hashes. */
  datatype Blob = Blob(sha256: string, path: string)

  /** `referrers` counts, per source, the rows of the seven tables that block a purge. */
  datatype Tables = Tables(
    sources: map<string, SourceRow>, snapshots: seq<Snapshot>, entries: seq<Entry>, blobs: seq<Blob>,
    referrers: map<string, seq<nat>>, receipts: set<string>)

  function SnapshotsOf(snapshots: seq<Snapshot>, source: string): seq<Snapshot> {
    if snapshots == [] then []
    else (if snapshots[0].source == source then [snapshots[0]] else []) + SnapshotsOf(snapshots[1..], source)
  }

  function SnapshotsNotOf(snapshots: seq<Snapshot>, source: string): seq<Snapshot> {
    if snapshots == [] then []
    else (if snapshots[0].source != source then [snapshots[0]] else []) + SnapshotsNotOf(snapshots[1..], source)
  }

  predicate UsedBy(t: Tables, source: string, blob: string) {
    exists i, j :: 0 <= i < |t.entries| && 0 <= j < |t.snapshots|
      && t.entries[i].blob == blob && t.entries[i].snapshot == t.snapshots[j].id && t.snapshots[j].source == source
  }

  predicate UsedByOther(t: Tables, source: string, blob: string) {
    exists i, j :: 0 <= i < |t.entries| && 0 <= j < |t.snapshots|
      && t.entries[i].blob == blob && t.entries[i].snapshot == t.snapshots[j].id && t.snapshots[j].source != source
  }

  predicate Exclusive(t: Tables, source: string, blob: string) {
    UsedBy(t, source, blob) && !UsedByOther(t, source, blob)
  }

  function ExclusiveBlobs(t: Tables, source: string, blobs: seq<Blob>): (found: seq<Blob>)
    ensures forall b :: b in found <==> b in blobs && Exclusive(t, source, b.sha256)
  {
    if blobs == [] then []
    else
      assert blobs == [blobs[0]] + blobs[1..];
      (if Exclusive(t, source, blobs[0].sha256) then [blobs[0]] else []) + ExclusiveBlobs(t, source, blobs[1..])
  }

  function RemainingBlobs(t: Tables, source: string, blobs: seq<Blob>): (found: seq<Blob>)
    ensures forall b :: b in found <==> b in blobs && !Exclusive(t, source, b.sha256)
  {
    if blobs == [] then []
    else
      assert blobs == [blobs[0]] + blobs[1..];
      (if !Exclusive(t, source, blobs[0].sha256) then [blobs[0]] else []) + RemainingBlobs(t, source, blobs[1..])
  }

  function Manifests(snapshots: seq<Snapshot>): (paths: seq<string>)
    ensures |paths| == |snapshots| && forall i | 0 <= i < |snapshots| :: paths[i] == snapshots[i].manifest
  {
    seq(|snapshots|, i requires 0 <= i < |snapshots| => snapshots[i].manifest)
  }

  function BlobPaths(blobs: seq<Blob>): (paths: seq<string>)
    ensures |paths| == |blobs| && forall i | 0 <= i < |blobs| :: paths[i] == blobs[i].path
  {
    seq(|blobs|, i requires 0 <= i < |blobs| => blobs[i].path)
  }

  function Sum(counts: seq<nat>): nat {
    if counts == [] then 0 else counts[0] + Sum(counts[1..])
  }

  /** What the plan records and Apply compares by hash. */
  datatype Impact = Impact(source: SourceRow, blockers: seq<nat>, manifests: seq<string>, blobs: seq<Blob>)

  datatype PurgeError = NotFound | RequiresDelete | ImpactChanged | Blocked | FileChanged | TransactionFailed | NotUnlinked

  function DescribeSourcePurge(t: Tables, source: string): Result<Impact, PurgeError> {
    if source !in t.sources then Failure(NotFound)
    else if !t.sources[source].deleted then Failure(RequiresDelete)
    else
      Success(Impact(t.sources[source],
                     if source in t.referrers then t.referrers[source] else [],
                     Manifests(SnapshotsOf(t.snapshots, source)),
                     ExclusiveBlobs(t, source, t.blobs)))
  }

  function FilesOf(impact: Impact): seq<string> {
    impact.manifests + BlobPaths(impact.blobs)
  }

  function EntriesKept(entries: seq<Entry>, gone: set<string>): (kept: seq<Entry>)
    ensures forall e :: e in kept <==> e in entries && e.snapshot !in gone
  {
    if entries == [] then []
    else
      assert entries == [entries[0]] + entries[1..];
      (if entries[0].snapshot !in gone then [entries[0]] else []) + EntriesKept(entries[1..], gone)
  }

  function SnapshotIds(snapshots: seq<Snapshot>): set<string> {
    set s | s in snapshots :: s.id
  }

  /** The transaction: entries first, then snapshots, blobs and the source itself. */
  function Purged(t: Tables, source: string): Tables {
    t.(entries := EntriesKept(t.entries, SnapshotIds(SnapshotsOf(t.snapshots, source))),
       snapshots := SnapshotsNotOf(t.snapshots, source),
       blobs := RemainingBlobs(t, source, t.blobs),
       sources := t.sources - {source},
       receipts := t.receipts + {source})
  }

  function Listed(files: seq<string>): set<string> {
    set p | p in files
  }

  class Workspace {
    var tables: Tables
    var files: map<string, string>
    /** The staging directory of the one purge under way. */
    var stage: map<string, string>

    constructor (tables: Tables, files: map<string, string>)
      ensures this.tables == tables && this.files == files && stage == map[]
    {
      this.tables := tables;
      this.files := files;
      stage := map[];
    }

    /** Nothing is lost: each file is in its place or in staging, not in both, as it was. */
    twostate predicate NothingLost()
      reads this
    {
      files + stage == old(files) + old(stage) && files.Keys !! stage.Keys
    }

    method MoveBack(path: string)
      requires path in stage && files.Keys !! stage.Keys
      modifies this`files, this`stage
      ensures stage.Keys == old(stage).Keys - {path} && files.Keys == old(files).Keys + {path}
      ensures files + stage == old(files) + old(stage)
    {
      MovedBack(files, stage, path);
      files, stage := files[path := stage[path]], stage - {path};
    }

    /** restoreFiles: the staged files, last one first. A rename back that fails is passed over, and a
        directory that cannot be made ends the loop. So a file stays in staging exactly when its
        rename back fails, or its directory or that of one staged later cannot be made. */
    method RestoreFiles(staged: seq<string>, faults: Faults)
      requires Distinct(staged) && stage.Keys <= Listed(staged) && stage.Keys !! files.Keys
      modifies this`files, this`stage
      ensures NothingLost()
      ensures stage.Keys == old(stage).Keys * Stranded(staged, faults)
      ensures files == old(files) + (old(stage) - Stranded(staged, faults))
    {
      ghost var all, there := files + stage, stage.Keys;
      var left: nat := |staged|;
      WholeListed(staged);
      while left > 0 && staged[left - 1] !in faults.noDirectory
        invariant left <= |staged| && files + stage == all && files.Keys !! stage.Keys
        invariant stage.Keys == there * (faults.back + Listed(staged[..left]))
        invariant forall i | left <= i < |staged| :: staged[i] !in faults.noDirectory
      {
        left := left - 1;
        OneMoreListed(staged, left);
        KeysAfter(there, faults.back, Listed(staged[..left]), staged[left]);
        if staged[left] in stage && staged[left] !in faults.back {
          MoveBack(staged[left]);
        }
      }
      RestoredAsStated(old(files), old(stage), files, stage, staged, faults, left);
    }

    /** stageFiles: every file moves out of place, or those that did are moved back. It stops at the
        first path that is not a file any more or does not move. */
    method StageFiles(paths: seq<string>, faults: Faults) returns (r: Outcome<PurgeError>)
      requires stage == map[]
      modifies this`files, this`stage
      ensures NothingLost() && files == old(files) - stage.Keys
      ensures r.Pass? <==> FirstStop(paths, old(files), faults.out, 0) == |paths|
      ensures r.Pass? ==> stage.Keys == Listed(paths) <= old(files).Keys && Distinct(paths)
      ensures r.Fail? ==> r.error == FileChanged
      ensures r.Fail? ==>
        var staged := paths[..FirstStop(paths, old(files), faults.out, 0)];
        stage.Keys == Listed(staged) * Stranded(staged, faults)
    {
      ghost var all := files;
      for i := 0 to |paths|
        invariant Distinct(paths[..i]) && Listed(paths[..i]) <= all.Keys
        invariant stage.Keys == Listed(paths[..i]) && files == all - stage.Keys && files + stage == all
        invariant forall k | 0 <= k < i :: !Stops(paths, all, faults.out, k)
      {
        var path := paths[i];
        OneMoreListed(paths, i);
        if path !in files || path in faults.out {
          StopsHere(paths, all, faults.out, i);
          RestoreFiles(paths[..i], faults);
          KeptOut(all, files, stage);
          r := Fail(FileChanged);
          return;
        }
        MovedOut(all, files, stage, path);
        files, stage := files - {path}, stage[path := files[path]];
      }
      WholeListed(paths);
      return Pass;
    }

    /** applySourcePurge. Any rename may fail, and so may the transaction of itself and each unlink of
        a staged file; `faults` says which. It goes through exactly for the impact planned, without
        blockers, and without a fault that matters. Failed before the commit it leaves every row, and
        of the files staged by then just those that cannot come back stay staged. Failed while
        unlinking it has purged every row, and the files not yet unlinked come back likewise. */
    method ApplySourcePurge(source: string, planned: Impact, faults: Faults) returns (r: Outcome<PurgeError>)
      requires stage == map[]
      modifies this
      ensures r.Pass? || r.error == NotUnlinked <==>
              Approved(old(tables), source, planned) && AllStaged(planned, old(files), faults) && !faults.transaction
      ensures r.Pass? ==> faults.unlink !! Listed(FilesOf(planned))
      ensures r.Pass? ==> stage == map[] && files == old(files) - Listed(FilesOf(planned))
      ensures r.Fail? && r.error == NotUnlinked ==>
        var (paths, gone) := (FilesOf(planned), FirstIn(FilesOf(planned), faults.unlink, 0));
        && gone < |paths| && stage.Keys == Listed(paths[gone..]) * Stranded(paths, faults)
        && files + stage == old(files) - Listed(paths[..gone]) && files.Keys !! stage.Keys
      ensures r.Pass? || r.error == NotUnlinked ==> tables == Purged(old(tables), source)
      ensures r.Fail? && r.error != NotUnlinked ==>
        var staged := StagedBy(old(tables), source, planned, old(files), faults);
        && tables == old(tables) && NothingLost() && stage.Keys == Listed(staged) * Stranded(staged, faults)
        && (files == old(files) <==> Listed(staged) !! Stranded(staged, faults))
      ensures r.Fail? && r.error != NotUnlinked && faults.back == {} && faults.noDirectory == {} ==>
        files == old(files) && stage == map[]
      ensures (r.Pass? || r.error == NotUnlinked) && Archived(old(tables), old(files)) ==> Archived(tables, files)
      ensures r.Pass? && Archived(old(tables), old(files)) ==> ExactlyPurged(old(tables), old(files), tables, files, source)
    {
      var current := DescribeSourcePurge(tables, source);
      if current.Failure? {
        return Fail(current.error);
      }
      if current.value != planned {
        return Fail(ImpactChanged);
      }
      if Sum(planned.blockers) != 0 {
        return Fail(Blocked);
      }
      r := PurgeFiles(source, FilesOf(planned), faults);
      if (r.Pass? || r.error == NotUnlinked) && Archived(old(tables), old(files)) {
        StaysArchived(old(tables), old(files), files, source, planned);
        if r.Pass? {
          PurgeIsExact(old(tables), old(files), source);
        }
      }
    }

    /** From staging on. */
    method PurgeFiles(source: string, paths: seq<string>, faults: Faults) returns (r: Outcome<PurgeError>)
      requires stage == map[]
      modifies this
      ensures r.Fail? ==> r.error in {FileChanged, TransactionFailed, NotUnlinked}
      ensures r.Pass? || r.error == NotUnlinked <==>
              FirstStop(paths, old(files), faults.out, 0) == |paths| && !faults.transaction
      ensures r.Pass? ==> faults.unlink !! Listed(paths) && stage == map[] && files == old(files) - Listed(paths)
      ensures r.Pass? || r.error == NotUnlinked ==>
        tables == Purged(old(tables), source) && (old(files) - Listed(paths)).Keys <= files.Keys
      ensures r.Fail? && r.error == NotUnlinked ==>
        var gone := FirstIn(paths, faults.unlink, 0);
        && gone < |paths| && stage.Keys == Listed(paths[gone..]) * Stranded(paths, faults)
        && files + stage == old(files) - Listed(paths[..gone]) && files.Keys !! stage.Keys
      ensures r.Fail? && r.error != NotUnlinked ==>
        var staged := paths[..FirstStop(paths, old(files), faults.out, 0)];
        && tables == old(tables) && NothingLost() && stage.Keys == Listed(staged) * Stranded(staged, faults)
        && (files == old(files) <==> Listed(staged) !! Stranded(staged, faults))
    {
      ghost var staged := paths[..FirstStop(paths, files, faults.out, 0)];
      r := StageFiles(paths, faults);
      if r.Fail? {
        NoneTaken(old(files), files, stage, Listed(staged), Stranded(staged, faults));
        return;
      }
      WholeListed(paths);
      if faults.transaction {
        RestoreFiles(paths, faults);
        NoneTaken(old(files), files, stage, Listed(staged), Stranded(staged, faults));
        return Fail(TransactionFailed);
      }
      tables := Purged(tables, source);
      r := UnlinkStaged(paths, old(files), faults);
    }

    /** The unlinking loop after the commit, and restoreFiles when one unlink fails. */
    method UnlinkStaged(paths: seq<string>, ghost all: map<string, string>, faults: Faults) returns (r: Outcome<PurgeError>)
      requires Distinct(paths) && stage.Keys == Listed(paths) && stage.Keys !! files.Keys && files + stage == all
      requires files == all - Listed(paths)
      modifies this`files, this`stage
      ensures r.Pass? <==> faults.unlink !! Listed(paths)
      ensures r.Pass? ==> stage == map[] && files == old(files)
      ensures r.Fail? ==> r.error == NotUnlinked
      ensures r.Fail? ==>
        var gone := FirstIn(paths, faults.unlink, 0);
        && gone < |paths| && stage.Keys == Listed(paths[gone..]) * Stranded(paths, faults)
        && files + stage == all - Listed(paths[..gone]) && files.Keys !! stage.Keys
        && files.Keys >= old(files).Keys
    {
      WholeListed(paths);
      for i := 0 to |paths|
        invariant files + stage == all - Listed(paths[..i]) && files == old(files)
        invariant stage.Keys == Listed(paths[i..])
        invariant forall k | 0 <= k < i :: paths[k] !in faults.unlink
      {
        OneMoreListed(paths, i);
        if paths[i] in faults.unlink {
          PartIsListed(paths, i);
          FoundHere(paths, faults.unlink, i);
          RestoreFiles(paths, faults);
          return Fail(NotUnlinked);
        }
        Unlinked(all, files, stage, Listed(paths[..i]), paths[i]);
        stage := stage - {paths[i]};
      }
      NoneFound(paths, faults.unlink);
      return Pass;
    }
  }

  // ---- what goes wrong, and what comes of it ----

  /** The paths whose rename out of place fails, those whose rename back fails, those whose directory
      cannot be made again, whether the transaction fails of itself, and those whose unlink fails. */
  datatype Faults = Faults(out: set<string>, back: set<string>, noDirectory: set<string>, transaction: bool,
                           unlink: set<string>)

  predicate Distinct(paths: seq<string>) {
    forall i, j | 0 <= i < j < |paths| :: paths[i] != paths[j]
  }

  /** At or before a path whose directory cannot be made: the loop, from the last, does not get there. */
  function Unreached(staged: seq<string>, noDirectory: set<string>): set<string> {
    set i, j | 0 <= i <= j < |staged| && staged[j] in noDirectory :: staged[i]
  }

  /** The staged files that a restore leaves in staging. */
  function Stranded(staged: seq<string>, faults: Faults): set<string> {
    faults.back + Unreached(staged, faults.noDirectory)
  }

  lemma {:induction false} UnreachedFrom(staged: seq<string>, noDirectory: set<string>, left: nat)
    requires left <= |staged| && forall i | left <= i < |staged| :: staged[i] !in noDirectory
    requires left > 0 ==> staged[left - 1] in noDirectory
    ensures Unreached(staged, noDirectory) == Listed(staged[..left])
  {
    forall p | p in Listed(staged[..left]) ensures p in Unreached(staged, noDirectory) {
      var i :| 0 <= i < left && staged[i] == p;
      assert staged[left - 1] in noDirectory;
    }
  }

  /** Staging stops here: the file is gone, also by an earlier entry, or does not move. */
  predicate Stops(paths: seq<string>, files: map<string, string>, out: set<string>, i: nat)
    requires i < |paths|
  {
    paths[i] !in files || paths[i] in out || paths[i] in paths[..i]
  }

  function FirstStop(paths: seq<string>, files: map<string, string>, out: set<string>, from: nat): (k: nat)
    requires from <= |paths|
    ensures from <= k <= |paths| && (k < |paths| ==> Stops(paths, files, out, k))
    ensures forall j | from <= j < k :: !Stops(paths, files, out, j)
    decreases |paths| - from
  {
    if from == |paths| || Stops(paths, files, out, from) then from else FirstStop(paths, files, out, from + 1)
  }

  function FirstIn(paths: seq<string>, some: set<string>, from: nat): (k: nat)
    requires from <= |paths|
    ensures from <= k <= |paths| && (k < |paths| ==> paths[k] in some)
    ensures forall j | from <= j < k :: paths[j] !in some
    decreases |paths| - from
  {
    if from == |paths| || paths[from] in some then from else FirstIn(paths, some, from + 1)
  }

  lemma {:induction false} FoundHere(paths: seq<string>, some: set<string>, i: nat)
    requires i < |paths| && paths[i] in some && forall k | 0 <= k < i :: paths[k] !in some
    ensures FirstIn(paths, some, 0) == i && some * Listed(paths) != {}
  {
    assert paths[i] in some * Listed(paths);
  }

  lemma {:induction false} NoneFound(paths: seq<string>, some: set<string>)
    requires forall k | 0 <= k < |paths| :: paths[k] !in some
    ensures some !! Listed(paths) && Listed(paths[|paths|..]) == {}
  {
  }

  predicate Approved(t: Tables, source: string, planned: Impact) {
    DescribeSourcePurge(t, source) == Success(planned) && Sum(planned.blockers) == 0
  }

  predicate AllStaged(planned: Impact, files: map<string, string>, faults: Faults) {
    FirstStop(FilesOf(planned), files, faults.out, 0) == |FilesOf(planned)|
  }

  /** The files a purge has staged when it commits or fails. */
  function StagedBy(t: Tables, source: string, planned: Impact, files: map<string, string>, faults: Faults): seq<string> {
    if Approved(t, source, planned) then FilesOf(planned)[..FirstStop(FilesOf(planned), files, faults.out, 0)] else []
  }

  /** Where the loop of restoreFiles ends. */
  lemma {:induction false} RestoredAsStated(files0: map<string, string>, stage0: map<string, string>,
                                            files: map<string, string>, stage: map<string, string>,
                                            staged: seq<string>, faults: Faults, left: nat)
    requires files0.Keys !! stage0.Keys && files.Keys !! stage.Keys && files + stage == files0 + stage0
    requires left <= |staged| && stage.Keys == stage0.Keys * (faults.back + Listed(staged[..left]))
    requires forall i | left <= i < |staged| :: staged[i] !in faults.noDirectory
    requires left > 0 ==> staged[left - 1] in faults.noDirectory
    ensures stage.Keys == stage0.Keys * Stranded(staged, faults)
    ensures files == files0 + (stage0 - Stranded(staged, faults))
  {
    UnreachedFrom(staged, faults.noDirectory, left);
    OnlyStranded(files0, stage0, files, stage);
    LessOf(stage0, Stranded(staged, faults));
  }

  lemma WholeListed(paths: seq<string>)
    ensures paths[..|paths|] == paths && Listed(paths[..|paths|]) == Listed(paths)
    ensures paths[0..] == paths && Listed(paths[0..]) == Listed(paths)
  {
  }

  /** One more path, met for the first time if the paths are distinct. */
  lemma OneMoreListed(paths: seq<string>, i: nat)
    requires i < |paths|
    ensures paths[..i + 1] == paths[..i] + [paths[i]]
    ensures Listed(paths[..i + 1]) == Listed(paths[..i]) + {paths[i]}
    ensures Listed(paths[i..]) == {paths[i]} + Listed(paths[i + 1..])
    ensures Distinct(paths) ==> paths[i] !in Listed(paths[..i]) && paths[i] !in Listed(paths[i + 1..])
  {
    assert paths[i..] == [paths[i]] + paths[i + 1..];
  }

  /** What is to stay once one more path has been looked at. */
  lemma KeysAfter(there: set<string>, back: set<string>, earlier: set<string>, path: string)
    requires path !in earlier
    ensures var keys := there * (back + (earlier + {path}));
      there * (back + earlier) == if path in keys && path !in back then keys - {path} else keys
  {
  }

  lemma {:induction false} StopsHere(paths: seq<string>, files: map<string, string>, out: set<string>, i: nat)
    requires i < |paths| && (paths[i] !in files - Listed(paths[..i]) || paths[i] in out)
    requires forall k | 0 <= k < i :: !Stops(paths, files, out, k)
    ensures FirstStop(paths, files, out, 0) == i
  {
    assert Stops(paths, files, out, i);
  }

  lemma MovedOut(all: map<string, string>, files: map<string, string>, stage: map<string, string>, path: string)
    requires files == all - stage.Keys && files + stage == all && path in files
    ensures all - stage[path := files[path]].Keys == files - {path}
    ensures (files - {path}) + stage[path := files[path]] == all
  {
  }

  lemma MovedBack(files: map<string, string>, stage: map<string, string>, path: string)
    requires path in stage && files.Keys !! stage.Keys
    ensures files[path := stage[path]] + (stage - {path}) == files + stage
  {
  }

  lemma PartIsListed(paths: seq<string>, i: nat)
    requires i <= |paths|
    ensures Listed(paths[i..]) <= Listed(paths) && Listed(paths[..i]) <= Listed(paths)
  {
  }

  lemma Unlinked(all: map<string, string>, files: map<string, string>, stage: map<string, string>, gone: set<string>, path: string)
    requires files + stage == all - gone && path !in files
    ensures files + (stage - {path}) == all - (gone + {path})
  {
    var left, more := files + (stage - {path}), all - (gone + {path});
    assert left.Keys == (files + stage).Keys - {path};
    forall p | p in left ensures left[p] == more[p] {
      assert (files + stage)[p] == left[p];
    }
  }

  lemma LessOf(m: map<string, string>, out: set<string>)
    ensures m - m.Keys * out == m - out
  {
  }

  /** With nothing lost, what is not in staging is in place. */
  lemma KeptOut(files0: map<string, string>, files: map<string, string>, stage: map<string, string>)
    requires files.Keys !! stage.Keys && files + stage == files0
    ensures files == files0 - stage.Keys
  {
    assert files0.Keys == files.Keys + stage.Keys;
    forall p | p in files ensures files0[p] == files[p] {
      assert (files + stage)[p] == files[p];
    }
  }

  /** With nothing lost, all files are in their places exactly when none is stranded. */
  lemma NoneTaken(files0: map<string, string>, files: map<string, string>, stage: map<string, string>,
                  staged: set<string>, stranded: set<string>)
    requires files.Keys !! stage.Keys && files + stage == files0 && stage.Keys == staged * stranded
    ensures files == files0 <==> staged !! stranded
  {
    if p :| p in stage {
      assert p in files + stage && p !in files;
      assert p in staged && p in stranded;
    } else {
      assert stage == map[] && files + stage == files;
      forall p | p in staged ensures p !in stranded {
        assert p in staged * stranded <==> p in stage;
      }
    }
  }

  /** What has left staging is back in its place. */
  lemma OnlyStranded(files0: map<string, string>, stage0: map<string, string>, files: map<string, string>,
                     stage: map<string, string>)
    requires files0.Keys !! stage0.Keys && files.Keys !! stage.Keys && stage.Keys <= stage0.Keys
    requires files + stage == files0 + stage0
    ensures files == files0 + (stage0 - stage.Keys)
    ensures forall p | p in stage0 :: p in files <==> p !in stage
  {
    var all := files0 + stage0;
    assert all.Keys == files.Keys + stage.Keys;
    forall p | p in files ensures p in files0 + (stage0 - stage.Keys) && files[p] == (files0 + (stage0 - stage.Keys))[p] {
      assert (files + stage)[p] == files[p] && all[p] == files[p];
    }
    forall p | p in files0 + (stage0 - stage.Keys) ensures p in files {
      assert p in all && p !in stage;
    }
  }

  // ---- what a purge keeps ----

  ghost predicate UniqueSnapshots(snapshots: seq<Snapshot>) {
    forall i, j | 0 <= i < j < |snapshots| :: snapshots[i].id != snapshots[j].id
  }

  /** Identities, foreign keys, and archived files in place. */
  ghost predicate Archived(t: Tables, files: map<string, string>) {
    && UniqueSnapshots(t.snapshots)
    && (forall a, b | a in t.blobs && b in t.blobs && (a.sha256 == b.sha256 || a.path == b.path) :: a == b)
    && (forall s, u | s in t.snapshots && u in t.snapshots && s.manifest == u.manifest :: s == u)
    && (forall s, b | s in t.snapshots && b in t.blobs :: s.manifest != b.path)
    && (forall e | e in t.entries :: exists s :: s in t.snapshots && s.id == e.snapshot)
    && (forall e | e in t.entries :: exists b :: b in t.blobs && b.sha256 == e.blob)
    && (forall s | s in t.snapshots :: s.manifest in files)
    && (forall e, b | e in t.entries && b in t.blobs && b.sha256 == e.blob :: b.path in files)
  }

  lemma {:induction false} SnapshotsSplit(snapshots: seq<Snapshot>, source: string, s: Snapshot)
    ensures s in SnapshotsOf(snapshots, source) <==> s in snapshots && s.source == source
    ensures s in SnapshotsNotOf(snapshots, source) <==> s in snapshots && s.source != source
  {
    if snapshots != [] {
      assert snapshots == [snapshots[0]] + snapshots[1..];
      SnapshotsSplit(snapshots[1..], source, s);
    }
  }

  lemma UsedMeans(t: Tables, source: string, blob: string)
    ensures UsedBy(t, source, blob) <==>
            exists e, s :: e in t.entries && s in t.snapshots && e.blob == blob && e.snapshot == s.id && s.source == source
    ensures UsedByOther(t, source, blob) <==>
            exists e, s :: e in t.entries && s in t.snapshots && e.blob == blob && e.snapshot == s.id && s.source != source
  {
    if e, s :| e in t.entries && s in t.snapshots && e.blob == blob && e.snapshot == s.id && s.source == source {
      var i :| 0 <= i < |t.entries| && t.entries[i] == e;
      var j :| 0 <= j < |t.snapshots| && t.snapshots[j] == s;
    }
    if e, s :| e in t.entries && s in t.snapshots && e.blob == blob && e.snapshot == s.id && s.source != source {
      var i :| 0 <= i < |t.entries| && t.entries[i] == e;
      var j :| 0 <= j < |t.snapshots| && t.snapshots[j] == s;
    }
  }

  lemma {:induction false} KeptSnapshotsStayUnique(snapshots: seq<Snapshot>, source: string)
    requires UniqueSnapshots(snapshots)
    ensures UniqueSnapshots(SnapshotsNotOf(snapshots, source))
  {
    if snapshots != [] {
      var tail := snapshots[1..];
      KeptSnapshotsStayUnique(tail, source);
      var rest := SnapshotsNotOf(tail, source);
      forall j | 0 <= j < |rest| ensures rest[j].id != snapshots[0].id {
        SnapshotsSplit(tail, source, rest[j]);
        var i :| 0 <= i < |tail| && tail[i] == rest[j];
        assert snapshots[i + 1] == tail[i];
      }
    }
  }

  lemma SameIdSameSnapshot(t: Tables, s: Snapshot, u: Snapshot)
    requires UniqueSnapshots(t.snapshots)
    requires s in t.snapshots && u in t.snapshots && s.id == u.id
    ensures s == u
  {
    var i :| 0 <= i < |t.snapshots| && t.snapshots[i] == s;
    var j :| 0 <= j < |t.snapshots| && t.snapshots[j] == u;
    assert i < j || j < i || i == j;
  }

  /** A kept entry belongs to a kept snapshot of another source, whose blob is kept too. */
  lemma KeptEntryIsWhole(t: Tables, files: map<string, string>, source: string, e: Entry)
    requires Archived(t, files) && e in Purged(t, source).entries
    ensures exists s :: s in Purged(t, source).snapshots && s.id == e.snapshot
    ensures exists b :: b in Purged(t, source).blobs && b.sha256 == e.blob
  {
    var s :| s in t.snapshots && s.id == e.snapshot;
    SnapshotsSplit(t.snapshots, source, s);
    assert s.source != source by {
      assert s in SnapshotsOf(t.snapshots, source) ==> s.id in SnapshotIds(SnapshotsOf(t.snapshots, source));
    }
    assert s in Purged(t, source).snapshots;
    UsedMeans(t, source, e.blob);
    assert UsedByOther(t, source, e.blob);
    var b :| b in t.blobs && b.sha256 == e.blob;
    assert b in Purged(t, source).blobs;
  }

  lemma ManifestsOfSource(snapshots: seq<Snapshot>, source: string, path: string)
    ensures path in Manifests(SnapshotsOf(snapshots, source)) <==>
            exists s :: s in snapshots && s.source == source && s.manifest == path
  {
    var own := SnapshotsOf(snapshots, source);
    if path in Manifests(own) {
      var i :| 0 <= i < |own| && own[i].manifest == path;
      SnapshotsSplit(snapshots, source, own[i]);
    }
    if s :| s in snapshots && s.source == source && s.manifest == path {
      SnapshotsSplit(snapshots, source, s);
      var i :| 0 <= i < |own| && own[i] == s;
      assert Manifests(own)[i] == path;
    }
  }

  lemma PathsOfBlobs(blobs: seq<Blob>, path: string)
    ensures path in BlobPaths(blobs) <==> exists b :: b in blobs && b.path == path
  {
    if path in BlobPaths(blobs) {
      var i :| 0 <= i < |blobs| && BlobPaths(blobs)[i] == path;
      assert blobs[i] in blobs;
    }
    if b :| b in blobs && b.path == path {
      var i :| 0 <= i < |blobs| && blobs[i] == b;
      assert BlobPaths(blobs)[i] == path;
    }
  }

  /** The removed files: manifests of the source and blobs only it used. */
  lemma RemovedFilesAre(t: Tables, source: string, path: string)
    requires source in t.sources && t.sources[source].deleted
    ensures path in Listed(FilesOf(DescribeSourcePurge(t, source).value)) <==>
            || (exists s :: s in t.snapshots && s.source == source && s.manifest == path)
            || (exists b :: b in t.blobs && Exclusive(t, source, b.sha256) && b.path == path)
  {
    ManifestsOfSource(t.snapshots, source, path);
    PathsOfBlobs(ExclusiveBlobs(t, source, t.blobs), path);
  }

  /** After a purge every remaining snapshot entry still has its snapshot, its blob row, its
      manifest and its file. */
  lemma PurgeKeepsArchive(t: Tables, files: map<string, string>, source: string)
    requires Archived(t, files)
    requires DescribeSourcePurge(t, source).Success?
    ensures Archived(Purged(t, source), files - Listed(FilesOf(DescribeSourcePurge(t, source).value)))
  {
    var u := Purged(t, source);
    var left := files - Listed(FilesOf(DescribeSourcePurge(t, source).value));
    KeptSnapshotsStayUnique(t.snapshots, source);
    forall s | s in u.snapshots ensures s in t.snapshots && s.source != source {
      SnapshotsSplit(t.snapshots, source, s);
    }
    forall e | e in u.entries
      ensures exists s :: s in u.snapshots && s.id == e.snapshot
      ensures exists b :: b in u.blobs && b.sha256 == e.blob
    {
      KeptEntryIsWhole(t, files, source, e);
    }
    forall s | s in u.snapshots ensures s.manifest in left {
      RemovedFilesAre(t, source, s.manifest);
    }
    forall e, b | e in u.entries && b in u.blobs && b.sha256 == e.blob ensures b.path in left {
      RemovedFilesAre(t, source, b.path);
    }
  }

  /** Some row names the file: a manifest or a blob. */
  ghost predicate Named(t: Tables, path: string) {
    (exists s :: s in t.snapshots && s.manifest == path) || (exists b :: b in t.blobs && b.path == path)
  }

  /** The entry's snapshot is this source's. */
  ghost predicate OfSource(t: Tables, source: string, e: Entry) {
    exists s :: s in t.snapshots && s.id == e.snapshot && s.source == source
  }

  /** What is gone is the source's rows, the blobs it alone used, and, of the files, exactly those
      some row named and none names any more; the rest is as it was. */
  ghost predicate ExactlyPurged(t: Tables, files: map<string, string>, u: Tables, left: map<string, string>, source: string) {
    && u.sources == t.sources - {source} && u.receipts == t.receipts + {source}
    && (forall s :: s in u.snapshots <==> s in t.snapshots && s.source != source)
    && (forall e :: e in u.entries <==> e in t.entries && !OfSource(t, source, e))
    && (forall b :: b in u.blobs <==> b in t.blobs && (UsedBy(t, source, b.sha256) ==> UsedByOther(t, source, b.sha256)))
    && (forall p | p in files :: p in left <==> (Named(t, p) ==> Named(u, p)))
    && (forall p | p in left :: p in files && left[p] == files[p])
  }

  lemma {:induction false} GoneEntries(t: Tables, source: string, e: Entry)
    ensures e.snapshot in SnapshotIds(SnapshotsOf(t.snapshots, source)) <==> OfSource(t, source, e)
  {
    var own := SnapshotsOf(t.snapshots, source);
    if s :| s in own && s.id == e.snapshot {
      SnapshotsSplit(t.snapshots, source, s);
    }
    if s :| s in t.snapshots && s.id == e.snapshot && s.source == source {
      SnapshotsSplit(t.snapshots, source, s);
      assert s.id in SnapshotIds(own);
    }
  }

  /** A file some row named is removed exactly when no row left names it. */
  lemma {:induction false} FilesGoWithTheirRows(t: Tables, files: map<string, string>, source: string, path: string)
    requires Archived(t, files) && DescribeSourcePurge(t, source).Success?
    ensures path in Listed(FilesOf(DescribeSourcePurge(t, source).value)) <==> Named(t, path) && !Named(Purged(t, source), path)
  {
    var u := Purged(t, source);
    RemovedFilesAre(t, source, path);
    forall s ensures s in u.snapshots <==> s in t.snapshots && s.source != source {
      SnapshotsSplit(t.snapshots, source, s);
    }
  }

  lemma {:induction false} PurgeIsExact(t: Tables, files: map<string, string>, source: string)
    requires Archived(t, files) && DescribeSourcePurge(t, source).Success?
    ensures ExactlyPurged(t, files, Purged(t, source),
                          files - Listed(FilesOf(DescribeSourcePurge(t, source).value)), source)
  {
    forall s ensures s in Purged(t, source).snapshots <==> s in t.snapshots && s.source != source {
      SnapshotsSplit(t.snapshots, source, s);
    }
    forall e ensures e in Purged(t, source).entries <==> e in t.entries && !OfSource(t, source, e) {
      GoneEntries(t, source, e);
    }
    forall p | p in files
      ensures p in Listed(FilesOf(DescribeSourcePurge(t, source).value)) <==> Named(t, p) && !Named(Purged(t, source), p)
    {
      FilesGoWithTheirRows(t, files, source, p);
    }
  }

  lemma StaysArchived(t: Tables, files0: map<string, string>, files: map<string, string>, source: string, planned: Impact)
    requires Archived(t, files0) && DescribeSourcePurge(t, source) == Success(planned)
    requires (files0 - Listed(FilesOf(planned))).Keys <= files.Keys
    ensures Archived(Purged(t, source), files)
  {
    PurgeKeepsArchive(t, files0, source);
    MoreFilesStayArchived(Purged(t, source), files0 - Listed(FilesOf(planned)), files);
  }

  lemma MoreFilesStayArchived(t: Tables, fewer: map<string, string>, files: map<string, string>)
    requires Archived(t, fewer) && fewer.Keys <= files.Keys
    ensures Archived(t, files)
  {
  }
}
