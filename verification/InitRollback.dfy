/** Creating a workspace's directories and files under a journal, and taking an interrupted
    initialisation back (init-files.ts, init-rollback.ts). */
module InitRollback {
  import opened Outcomes

  /** A path as its segments below the workspace root; the root itself is []. */
  type Path = seq<string>

  /** A file is known by its digest. */
  type Files = map<Path, string>

  datatype Created = Created(path: Path, isFile: bool, sha: Option<string>)

  datatype RollbackError = StateChanged | FileChanged(path: Path) | FileMissing(path: Path) | NotADirectory

  predicate Beneath(d: Path, p: Path) {
    |d| < |p| && p[..|d|] == d
  }

  /** Whatever exists lies in directories that exist. */
  predicate WellFormed(files: Files, dirs: set<Path>) {
    && (forall p | p in files :: p != [] && p !in dirs && p[..|p| - 1] in dirs)
    && (forall p | p in dirs :: p != [] ==> p[..|p| - 1] in dirs)
  }

  function ListedFiles(listing: seq<Created>): set<Path> {
    set i | 0 <= i < |listing| && listing[i].isFile :: listing[i].path
  }

  function DirectoryPaths(listing: seq<Created>): seq<Path> {
    if listing == [] then []
    else (if listing[0].isFile then [] else [listing[0].path]) + DirectoryPaths(listing[1..])
  }

  function ListedDirs(listing: seq<Created>): set<Path> {
    set i | 0 <= i < |listing| && !listing[i].isFile :: listing[i].path
  }

  lemma {:induction false} DirectoryPathsAreListed(listing: seq<Created>)
    ensures forall d :: d in DirectoryPaths(listing) <==> d in ListedDirs(listing)
  {
    if listing != [] {
      var rest := listing[1..];
      DirectoryPathsAreListed(rest);
      forall d ensures d in DirectoryPaths(listing) <==> d in ListedDirs(listing) {
        if d in ListedDirs(listing) {
          var i :| 0 <= i < |listing| && !listing[i].isFile && listing[i].path == d;
          if i > 0 {
            assert rest[i - 1] == listing[i];
            assert d in ListedDirs(rest);
          }
        }
        if d in ListedDirs(rest) {
          var i :| 0 <= i < |rest| && !rest[i].isFile && rest[i].path == d;
          assert listing[i + 1] == rest[i];
        }
        if d in DirectoryPaths(listing) && d !in DirectoryPaths(rest) {
          assert listing[0].path == d && !listing[0].isFile;
        }
      }
    } else {
      assert ListedDirs(listing) == {};
    }
  }

  // ---- deepest first ----

  /** Insert behind everything at least as deep. */
  function InsertByDepth(s: seq<Path>, x: Path): (r: seq<Path>)
    requires DeepestFirst(s)
    ensures DeepestFirst(r)
    ensures forall p :: p in r <==> p in s || p == x
    ensures forall p | p in r :: |p| <= |x| || (s != [] && |p| <= |s[0]|)
  {
    if s == [] then [x]
    else if |s[0]| >= |x| then [s[0]] + InsertByDepth(s[1..], x)
    else [x] + s
  }

  predicate DeepestFirst(s: seq<Path>) {
    forall i, j | 0 <= i < j < |s| :: |s[i]| >= |s[j]|
  }

  /** The stable sort by falling depth. */
  function SortedByDepth(s: seq<Path>): (r: seq<Path>)
    ensures DeepestFirst(r)
    ensures forall p :: p in r <==> p in s
  {
    if s == [] then []
    else
      assert s == s[..|s| - 1] + [s[|s| - 1]];
      InsertByDepth(SortedByDepth(s[..|s| - 1]), s[|s| - 1])
  }

  // ---- what a rollback should leave ----

  /** Something that stays lies beneath: a file, or a directory that is not listed. */
  predicate Needed(d: Path, files: Files, dirs: set<Path>, listed: set<Path>) {
    (exists f | f in files :: Beneath(d, f)) || (exists e | e in dirs :: Beneath(d, e) && e !in listed)
  }

  function KeptDirs(files: Files, dirs: set<Path>, listed: set<Path>): set<Path> {
    set d | d in dirs && (d !in listed || Needed(d, files, dirs, listed))
  }

  predicate HasEntry(d: Path, files: Files, dirs: set<Path>) {
    (exists f | f in files :: Beneath(d, f) && |f| == |d| + 1) || (exists e | e in dirs :: Beneath(d, e) && |e| == |d| + 1)
  }

  lemma {:induction false} AncestorsExist(files: Files, dirs: set<Path>, p: Path, n: nat)
    requires WellFormed(files, dirs) && p in dirs && n <= |p|
    ensures p[..n] in dirs
    decreases |p|
  {
    if n < |p| {
      assert p[..|p| - 1][..n] == p[..n];
      AncestorsExist(files, dirs, p[..|p| - 1], n);
    } else {
      assert p[..n] == p;
    }
  }

  lemma FileAncestorsExist(files: Files, dirs: set<Path>, p: Path, n: nat)
    requires WellFormed(files, dirs) && p in files && n < |p|
    ensures p[..n] in dirs
  {
    assert p[..|p| - 1][..n] == p[..n];
    AncestorsExist(files, dirs, p[..|p| - 1], n);
  }

  /** The entry of `d` on the way to something beneath it. */
  function EntryTowards(d: Path, p: Path): (a: Path)
    requires Beneath(d, p)
    ensures Beneath(d, a) && |a| == |d| + 1 && (a == p || Beneath(a, p))
  {
    var a := p[..|d| + 1];
    assert a[..|d|] == d;
    a
  }

  /** With everything deeper settled, a listed directory has an entry left exactly when it is
      needed. */
  lemma HasEntryIffNeeded(d: Path, files: Files, before: set<Path>, dirs: set<Path>, listed: set<Path>)
    requires WellFormed(files, before) && d in before
    requires forall e | e in before && |e| == |d| + 1 :: e in dirs <==> e !in listed || Needed(e, files, before, listed)
    requires dirs <= before
    ensures HasEntry(d, files, dirs) <==> Needed(d, files, before, listed)
  {
    if f :| f in files && Beneath(d, f) {
      var a := EntryTowards(d, f);
      if a != f {
        FileAncestorsExist(files, before, f, |a|);
        assert Needed(a, files, before, listed);
      }
    }
    if e :| e in before && Beneath(d, e) && e !in listed {
      var a := EntryTowards(d, e);
      AncestorsExist(files, before, e, |a|);
      assert a == e || Needed(a, files, before, listed);
    }
    if a :| a in dirs && Beneath(d, a) && |a| == |d| + 1 {
      if a in listed {
        if f :| f in files && Beneath(a, f) {
          BeneathTransitive(d, a, f);
        } else {
          var e :| e in before && Beneath(a, e) && e !in listed;
          BeneathTransitive(d, a, e);
        }
      }
    }
  }

  lemma BeneathTransitive(a: Path, b: Path, c: Path)
    requires Beneath(a, b) && Beneath(b, c)
    ensures Beneath(a, c)
  {
    assert c[..|a|] == c[..|b|][..|a|];
  }

  predicate BlockedIn(files: Files, p: Path) {
    exists n | 0 <= n < |p| :: p[..n] in files
  }

  /** Reading the directory finds something in it, or fails because there is a file instead. */
  predicate Refuses(d: Path, files: Files, dirs: set<Path>) {
    if d in dirs then HasEntry(d, files, dirs) else d in files || BlockedIn(files, d)
  }

  /** The directories left once those in `done` have been looked at. */
  function Settled(files: Files, before: set<Path>, listed: set<Path>, done: set<Path>): set<Path> {
    set d | d in before && (d !in done || Needed(d, files, before, listed))
  }

  /** Those in `done` that are reported as retained. */
  function Retained(files: Files, before: set<Path>, listed: set<Path>, done: set<Path>): set<Path> {
    set d | d in done && if d in before then Needed(d, files, before, listed) else d in files || BlockedIn(files, d)
  }

  function Members(s: seq<Path>): set<Path> {
    set p | p in s
  }

  // ---- the workspace ----

  class Workspace {
    var files: Files
    var dirs: set<Path>
    var created: seq<Created>

    /** What was there before the initialisation, and the paths of its journal and plan. */
    ghost const files0: Files
    ghost const dirs0: set<Path>
    ghost const own: set<Path>

    /** Nothing is listed that was there before, and everything that came since is, as it is. */
    ghost predicate Journaled()
      reads this
    {
      && Grown(files0, dirs0, files, dirs)
      && own !! files0.Keys && ListedFiles(created) !! files0.Keys && ListedFiles(created) !! own
      && ListedFiles(created) <= files.Keys <= files0.Keys + ListedFiles(created) + own
      && ListedDirs(created) == dirs - dirs0
      && ListedOnce(created) && RecordedAsTheyAre(created, files)
    }

    constructor (files: Files, dirs: set<Path>, ghost own: set<Path>)
      requires WellFormed(files, dirs) && own !! files.Keys
      ensures this.files == files0 == files && this.dirs == dirs0 == dirs && created == [] && this.own == own
      ensures Journaled()
    {
      this.files, this.dirs, created := files, dirs, [];
      files0, dirs0, this.own := files, dirs, own;
    }

    /** prepareJournal: the runtime directories are made and listed, whether they were there already
        or not; the root is listed only if it was not. So the journal starts out faithful exactly
        when there was no runtime directory. */
    method PrepareJournal() returns (outcome: Outcome<RollbackError>)
      requires WellFormed(files, dirs) && files == files0 && dirs == dirs0 && created == [] && own !! files.Keys
      modifies this`dirs, this`created
      ensures WellFormed(files, dirs)
      ensures outcome.Fail? <==> RUNTIME in files || RUNTIME_INIT in files || RUNTIME_TMP in files
      ensures outcome.Fail? ==> created == [] && old(dirs) <= dirs <= old(dirs) + {[], RUNTIME, RUNTIME_INIT}
      ensures outcome.Pass? ==> dirs == old(dirs) + {[], RUNTIME, RUNTIME_INIT, RUNTIME_TMP}
      ensures outcome.Pass? ==> created == PreparedListing([] !in old(dirs))
      ensures outcome.Pass? ==> (Journaled() <==> RUNTIME !in old(dirs))
    {
      NoSuchPath(files, dirs);
      if RUNTIME in files || RUNTIME_INIT in files {
        return Fail(NotADirectory);
      }
      var existed := [] in dirs;
      dirs := dirs + {[], RUNTIME, RUNTIME_INIT};
      RuntimeIsMade(files, old(dirs));
      if RUNTIME_TMP in files {
        return Fail(NotADirectory);
      }
      dirs := dirs + {RUNTIME_TMP};
      created := PreparedListing(!existed);
      PreparedIsJournaledIff(files0, dirs0, dirs, created);
      outcome := Pass;
    }

    predicate Exists(p: Path)
      reads this
    {
      p in files || p in dirs
    }

    /** A file stands where a directory on the way would have to be. */
    predicate Blocked(p: Path)
      reads this
    {
      BlockedIn(files, p)
    }

    /** ensureDirectory: the directories missing on the way are made, and recorded from the top
        down unless they are recorded already. */
    method EnsureDirectory(absolute: Path) returns (outcome: Outcome<RollbackError>)
      requires WellFormed(files, dirs)
      modifies this`dirs, this`created
      ensures WellFormed(files, dirs)
      ensures outcome.Fail? <==> old(!Exists(absolute) && Blocked(absolute))
      ensures outcome.Fail? || old(Exists(absolute)) ==> dirs == old(dirs) && created == old(created)
      ensures outcome.Pass? && !old(Exists(absolute)) ==>
        && dirs == old(dirs) + (set n | 0 <= n <= |absolute| :: absolute[..n])
        && ListedDirs(created) == ListedDirs(old(created)) + ((dirs - old(dirs)) - Paths(old(created)))
        && ListedFiles(created) == ListedFiles(old(created))
        && old(created) <= created
      ensures old(Journaled()) ==> Journaled()
    {
      if Exists(absolute) {
        return Pass;
      }
      if Blocked(absolute) {
        return Fail(NotADirectory);
      }
      var missing: seq<Path> := [];
      var lo := |absolute| + 1;
      while lo > 0 && !Exists(absolute[..lo - 1])
        invariant 0 <= lo <= |absolute| + 1 && |missing| == |absolute| + 1 - lo
        invariant forall i | 0 <= i < |missing| :: missing[i] == absolute[..lo + i] && missing[i] !in dirs
      {
        missing := [absolute[..lo - 1]] + missing;
        lo := lo - 1;
      }
      ghost var before := dirs;
      dirs := dirs + set n | 0 <= n <= |absolute| :: absolute[..n];
      MadeAreMissing(files, before, dirs, absolute, missing, lo);
      RecordDirectories(missing);
      outcome := Pass;
    }

    /** A file is written and then recorded: recordCreatedFile updates the entry of a path it
        finds, and adds one otherwise. */
    method CreateFile(path: Path, digest: string)
      requires WellFormed(files, dirs) && path != [] && path !in dirs && path[..|path| - 1] in dirs
      modifies this`files, this`created
      ensures WellFormed(files, dirs) && files == old(files)[path := digest]
      ensures created == Recorded(old(created), path, digest)
      ensures old(Journaled()) && path !in files0 && path !in own ==> Journaled()
    {
      ghost var journaled := Journaled();
      files := files[path := digest];
      RecordFile(path, digest);
      if journaled && path !in files0 && path !in own {
        RecordedKeepsListing(old(created), path, digest, old(files), dirs);
      }
    }

    method RecordFile(path: Path, digest: string)
      modifies this`created
      ensures created == Recorded(old(created), path, digest)
    {
      var i := 0;
      while i < |created| && created[i].path != path
        invariant 0 <= i <= |created| && forall j | 0 <= j < i :: created[j].path != path
      {
        i := i + 1;
      }
      EntryIsFirst(created, path, i);
      if i < |created| {
        created := created[i := created[i].(sha := Some(digest))];
      } else {
        created := created + [Created(path, true, Some(digest))];
      }
    }

    /** The first phase of applyInitRollback. It stops at the first listed file that changed; the
        files listed before it are gone by then. */
    method RemoveFiles(listing: seq<Created>) returns (outcome: Outcome<RollbackError>, removed: set<Path>)
      modifies this`files
      ensures removed == old(files).Keys - files.Keys
      ensures outcome.Pass? <==> FirstChanged(listing, old(files), 0).None?
      ensures outcome.Pass? ==> files == old(files) - ListedFiles(listing) && UnchangedSince(listing, old(files))
      ensures outcome.Fail? ==>
        var k := FirstChanged(listing, old(files), 0).value;
        && outcome.error == FileChanged(listing[k].path)
        && files == old(files) - ListedFiles(listing[..k])
        && (files == old(files) <==> ListedFiles(listing[..k]) !! old(files).Keys)
    {
      removed := {};
      var i := 0;
      while i < |listing|
        invariant 0 <= i <= |listing|
        invariant files == old(files) - ListedFiles(listing[..i]) && UnchangedSince(listing[..i], old(files))
        invariant forall j | 0 <= j < i :: !ChangedAt(listing, old(files), j)
        invariant removed == old(files).Keys - files.Keys
      {
        var item := listing[i];
        ListedOneMore(listing, i);
        if item.isFile && item.path in files {
          if item.sha.None? || files[item.path] != item.sha.value {
            assert ChangedAt(listing, old(files), i);
            NothingTakenIff(old(files), ListedFiles(listing[..i]));
            return Fail(FileChanged(item.path)), removed;
          }
          files := files - {item.path};
          removed := removed + {item.path};
        }
        UnchangedOneMore(listing, i, old(files));
        i := i + 1;
      }
      assert listing[..i] == listing;
      outcome := Pass;
    }

    /** Removing the journal and the plan, which must both still be there. */
    method RemoveOwn(journal: Path, plan: Path) returns (outcome: Outcome<RollbackError>)
      modifies this`files
      ensures outcome.Pass? <==> journal in old(files) && plan in old(files) && journal != plan
      ensures outcome.Pass? ==> files == old(files) - {journal, plan}
      ensures outcome.Fail? ==> files == old(files) - {journal}
    {
      if journal !in files {
        return Fail(FileMissing(journal));
      }
      files := files - {journal};
      if plan !in files {
        return Fail(FileMissing(plan));
      }
      files := files - {plan};
      outcome := Pass;
    }

    /** The last phase: listed directories, deepest first, are removed when they have nothing in
        them. */
    method RemoveDirectories(listing: seq<Created>) returns (removed: set<Path>, retained: set<Path>)
      requires WellFormed(files, dirs)
      modifies this`dirs
      ensures dirs == KeptDirs(files, old(dirs), ListedDirs(listing))
      ensures removed == old(dirs) - dirs
      ensures retained == Retained(files, old(dirs), ListedDirs(listing), ListedDirs(listing))
    {
      var directories := SortedByDepth(DirectoryPaths(listing));
      DirectoryPathsAreListed(listing);
      removed, retained := RemoveInOrder(directories, ListedDirs(listing));
      assert Members(directories) == ListedDirs(listing);
    }

    method RemoveInOrder(directories: seq<Path>, ghost listed: set<Path>) returns (removed: set<Path>, retained: set<Path>)
      requires WellFormed(files, dirs)
      requires DeepestFirst(directories) && forall d :: d in directories <==> d in listed
      modifies this`dirs
      ensures dirs == Settled(files, old(dirs), listed, Members(directories))
      ensures removed == old(dirs) - dirs
      ensures retained == Retained(files, old(dirs), listed, Members(directories))
    {
      ghost var before, done := dirs, Members([]);
      removed, retained := {}, {};
      var i := 0;
      while i < |directories|
        invariant 0 <= i <= |directories| && done == Members(directories[..i])
        invariant dirs == Settled(files, before, listed, done)
        invariant removed == before - dirs
        invariant retained == Retained(files, before, listed, done)
      {
        SettleOne(directories, i, files, before, listed);
        var gone, stays := RemoveDirectory(directories[i]);
        done := done + {directories[i]};
        if gone {
          removed := removed + {directories[i]};
        }
        if stays {
          retained := retained + {directories[i]};
        }
        i := i + 1;
      }
      assert directories[..i] == directories;
    }

    /** readdir, then rmdir if there was nothing: a directory that is not there is passed over, any
        other refusal retains it. */
    method RemoveDirectory(d: Path) returns (gone: bool, stays: bool)
      modifies this`dirs
      ensures dirs == if d in old(dirs) && !HasEntry(d, files, old(dirs)) then old(dirs) - {d} else old(dirs)
      ensures gone <==> d in old(dirs) && d !in dirs
      ensures stays <==> Refuses(d, files, old(dirs))
    {
      gone, stays := false, false;
      if d in dirs {
        if HasEntry(d, files, dirs) {
          stays := true;
        } else {
          dirs := dirs - {d};
          gone := true;
        }
      } else if d in files || BlockedIn(files, d) {
        stays := true;
      }
    }

    /** Everything applyInitRollback does to files: the listed ones, then the journal and the plan. */
    method RemoveAllFiles(listing: seq<Created>, journal: Path, plan: Path)
      returns (outcome: Outcome<RollbackError>, removed: set<Path>)
      modifies this`files
      ensures outcome.Pass? <==> old(RollbackGoesThrough(listing, files, journal, plan))
      ensures outcome.Pass? ==> files == old(files) - (ListedFiles(listing) + {journal, plan})
      ensures outcome.Pass? ==> removed == old(files).Keys - files.Keys
      ensures outcome.Fail? ==> files.Keys <= old(files).Keys <= files.Keys + ListedFiles(listing) + {journal}
      ensures outcome.Fail? ==> (files == old(files) <==> old(LosesNothing(listing, files, journal)))
    {
      UnchangedIff(listing, files);
      outcome, removed := RemoveFiles(listing);
      if outcome.Fail? {
        PartIsListed(listing, FirstChanged(listing, old(files), 0).value);
        return;
      }
      NothingTakenIff(old(files), ListedFiles(listing) + {journal});
      outcome := RemoveOwn(journal, plan);
      removed := removed + if outcome.Pass? then {journal, plan} else {};
    }

    /** applyInitRollback, once the plan is read. `journalUnchanged`: the journal is still the one
        the plan was made for. */
    method ApplyRollback(listing: seq<Created>, journal: Path, plan: Path, journalUnchanged: bool)
      returns (outcome: Outcome<RollbackError>, removed: set<Path>, retained: set<Path>)
      requires WellFormed(files, dirs)
      modifies this`files, this`dirs
      ensures WellFormed(files, dirs)
      ensures outcome.Fail? ==> dirs == old(dirs) && old(files).Keys - files.Keys <= ListedFiles(listing) + {journal}
      ensures outcome.Fail? ==> (files == old(files) <==> !journalUnchanged || old(LosesNothing(listing, files, journal)))
      ensures outcome.Pass? ==>
        && files == old(files) - (ListedFiles(listing) + {journal, plan}) && UnchangedSince(listing, old(files))
        && dirs == KeptDirs(files, old(dirs), ListedDirs(listing))
        && removed == (old(files).Keys - files.Keys) + (old(dirs) - dirs)
        && retained == Retained(files, old(dirs), ListedDirs(listing), ListedDirs(listing))
      ensures outcome.Pass? <==> journalUnchanged && old(RollbackGoesThrough(listing, files, journal, plan))
      ensures old(Journaled()) && listing == old(created) && own == {journal, plan} && journal != plan
              && own <= old(files).Keys && journalUnchanged
              ==> outcome.Pass? && files == files0 && dirs == dirs0
    {
      if Journaled() && listing == created && own == {journal, plan} {
        JournaledRollback(files0, dirs0, files, dirs, listing, own);
      }
      removed, retained := {}, {};
      if !journalUnchanged {
        return Fail(StateChanged), removed, retained;
      }
      outcome, removed := RemoveAllFiles(listing, journal, plan);
      FewerFilesAreWellFormed(old(files), files, dirs);
      if outcome.Fail? {
        return;
      }
      var directories: set<Path>;
      directories, retained := RemoveDirectories(listing);
      removed := removed + directories;
      KeptIsWellFormed(files, old(dirs), ListedDirs(listing));
      return Pass, removed, retained;
    }

    method RecordDirectories(missing: seq<Path>)
      requires forall i, j | 0 <= i < j < |missing| :: missing[i] != missing[j]
      modifies this`created
      ensures old(created) <= created
      ensures ListedFiles(created) == ListedFiles(old(created))
      ensures ListedDirs(created) == ListedDirs(old(created)) + set p | p in missing && p !in Paths(old(created))
      ensures ListedOnce(old(created)) ==> ListedOnce(created)
      ensures forall f: Files :: RecordedAsTheyAre(old(created), f) ==> RecordedAsTheyAre(created, f)
    {
      var i := 0;
      while i < |missing|
        invariant 0 <= i <= |missing|
        invariant old(created) <= created && ListedFiles(created) == ListedFiles(old(created))
        invariant ListedDirs(created) == ListedDirs(old(created)) + set p | p in missing[..i] && p !in Paths(old(created))
        invariant Paths(created) == Paths(old(created)) + set p | p in missing[..i]
        invariant ListedOnce(old(created)) ==> ListedOnce(created)
        invariant forall f: Files :: RecordedAsTheyAre(old(created), f) ==> RecordedAsTheyAre(created, f)
      {
        if missing[i] !in Paths(created) {
          OneMoreDirectory(created, missing[i]);
          created := created + [Created(missing[i], false, None)];
        }
        i := i + 1;
      }
    }
  }

  const RUNTIME: Path := ["runtime"]
  const RUNTIME_INIT: Path := ["runtime", "init"]
  const RUNTIME_TMP: Path := ["runtime", "tmp"]

  /** The entries a journal starts with. */
  function PreparedListing(rootIsNew: bool): seq<Created> {
    (if rootIsNew then [Created([], false, None)] else [])
    + [Created(RUNTIME, false, None), Created(RUNTIME_INIT, false, None), Created(RUNTIME_TMP, false, None)]
  }

  /** What the tree can be like around the runtime directories. */
  lemma NoSuchPath(files: Files, dirs: set<Path>)
    requires WellFormed(files, dirs)
    ensures RUNTIME_INIT in dirs || RUNTIME_INIT in files || RUNTIME_TMP in dirs || RUNTIME_TMP in files ==> RUNTIME in dirs
    ensures RUNTIME in dirs || RUNTIME in files ==> [] in dirs
    ensures [] !in files
  {
    assert RUNTIME_INIT[..1] == RUNTIME && RUNTIME_TMP[..1] == RUNTIME && RUNTIME[..0] == [];
  }

  lemma RuntimeIsMade(files: Files, before: set<Path>)
    requires WellFormed(files, before) && RUNTIME !in files && RUNTIME_INIT !in files
    ensures WellFormed(files, before + {[], RUNTIME, RUNTIME_INIT})
  {
    NoSuchPath(files, before);
    assert RUNTIME_INIT[..1] == RUNTIME && RUNTIME[..0] == [];
  }

  lemma PreparedDirs(rootIsNew: bool, listing: seq<Created>)
    requires listing == PreparedListing(rootIsNew)
    ensures ListedFiles(listing) == {} && ListedOnce(listing)
    ensures ListedDirs(listing) == {RUNTIME, RUNTIME_INIT, RUNTIME_TMP} + if rootIsNew then {[]} else {}
  {
    var at := if rootIsNew then 1 else 0;
    assert listing[at].path == RUNTIME && listing[at + 1].path == RUNTIME_INIT && listing[at + 2].path == RUNTIME_TMP;
    assert rootIsNew ==> listing[0].path == [];
    assert |RUNTIME| == 1 && |RUNTIME_INIT| == 2 && |RUNTIME_TMP| == 2 && RUNTIME_INIT[1] != RUNTIME_TMP[1];
  }

  lemma PreparedIsJournaledIff(files: Files, before: set<Path>, dirs: set<Path>, listing: seq<Created>)
    requires WellFormed(files, before) && dirs == before + {[], RUNTIME, RUNTIME_INIT, RUNTIME_TMP}
    requires RUNTIME !in files && RUNTIME_INIT !in files && RUNTIME_TMP !in files
    requires listing == PreparedListing([] !in before)
    ensures WellFormed(files, dirs)
    ensures ListedFiles(listing) == {} && ListedOnce(listing) && RecordedAsTheyAre(listing, files)
    ensures ListedDirs(listing) == dirs - before <==> RUNTIME !in before
  {
    PreparedDirs([] !in before, listing);
    NoSuchPath(files, before);
    assert forall i | 0 <= i < |listing| && listing[i].isFile :: listing[i].path in ListedFiles(listing);
    assert RUNTIME_INIT[..1] == RUNTIME && RUNTIME_TMP[..1] == RUNTIME && RUNTIME[..0] == [];
  }

  function Paths(listing: seq<Created>): set<Path> {
    set i | 0 <= i < |listing| :: listing[i].path
  }

  lemma OneMoreDirectory(listing: seq<Created>, p: Path)
    ensures var more := listing + [Created(p, false, None)];
      && Paths(more) == Paths(listing) + {p} && ListedFiles(more) == ListedFiles(listing)
      && ListedDirs(more) == ListedDirs(listing) + {p}
      && (ListedOnce(listing) && p !in Paths(listing) ==> ListedOnce(more))
      && (forall f: Files :: RecordedAsTheyAre(listing, f) ==> RecordedAsTheyAre(more, f))
  {
    var more := listing + [Created(p, false, None)];
    assert more[|listing|].path == p && !more[|listing|].isFile;
    forall i | 0 <= i < |listing| ensures more[i] == listing[i] {}
    forall q | q in Paths(listing) ensures q in Paths(more) {
      var i :| 0 <= i < |listing| && listing[i].path == q;
      assert more[i].path == q;
    }
    forall q | q in ListedFiles(listing) ensures q in ListedFiles(more) {
      var i :| 0 <= i < |listing| && listing[i].isFile && listing[i].path == q;
      assert more[i].path == q;
    }
    forall q | q in ListedDirs(listing) ensures q in ListedDirs(more) {
      var i :| 0 <= i < |listing| && !listing[i].isFile && listing[i].path == q;
      assert more[i].path == q;
    }
  }

  /** The directories newly made are those found missing. */
  lemma MadeAreMissing(files: Files, before: set<Path>, dirs: set<Path>, absolute: Path, missing: seq<Path>, lo: nat)
    requires WellFormed(files, before) && lo <= |absolute| + 1 && |missing| == |absolute| + 1 - lo
    requires forall i | 0 <= i < |missing| :: missing[i] == absolute[..lo + i] && missing[i] !in before
    requires absolute !in files && forall n | 0 <= n < |absolute| :: absolute[..n] !in files
    requires lo > 0 ==> absolute[..lo - 1] in files || absolute[..lo - 1] in before
    requires dirs == before + set n | 0 <= n <= |absolute| :: absolute[..n]
    ensures dirs - before == set p | p in missing
    ensures WellFormed(files, dirs)
    ensures forall i, j | 0 <= i < j < |missing| :: missing[i] != missing[j]
  {
    assert absolute[..|absolute|] == absolute;
    forall n | 0 <= n <= |absolute| ensures absolute[..n] in before <==> n < lo {
      if n < lo {
        assert absolute[..lo - 1] in before;
        AncestorsExist(files, before, absolute[..lo - 1], n);
        assert absolute[..lo - 1][..n] == absolute[..n];
      } else {
        assert missing[n - lo] == absolute[..n];
      }
    }
    forall p | p in dirs - before ensures p in missing {
      var n :| 0 <= n <= |absolute| && p == absolute[..n];
      assert missing[n - lo] == p;
    }
    forall p | p in dirs && p != [] ensures p[..|p| - 1] in dirs {
      if p !in before {
        var n :| 0 <= n <= |absolute| && p == absolute[..n];
        assert p[..|p| - 1] == absolute[..n - 1];
      }
    }
    forall i, j | 0 <= i < j < |missing| ensures missing[i] != missing[j] {
      assert |missing[i]| == lo + i && |missing[j]| == lo + j;
    }
  }

  // ---- which rollbacks go through ----

  /** Each listed file that exists was recorded with the digest it has, by its first entry. */
  predicate UnchangedSince(listing: seq<Created>, files: Files) {
    forall i | 0 <= i < |listing| && listing[i].isFile && listing[i].path in files ::
      listing[i].sha == Some(files[listing[i].path]) || listing[i].path in ListedFiles(listing[..i])
  }

  predicate RollbackGoesThrough(listing: seq<Created>, files: Files, journal: Path, plan: Path) {
    && UnchangedSince(listing, files)
    && journal in files && plan in files && journal != plan
    && journal !in ListedFiles(listing) && plan !in ListedFiles(listing)
  }

  lemma ListedOneMore(listing: seq<Created>, i: nat)
    requires i < |listing|
    ensures ListedFiles(listing[..i + 1])
            == ListedFiles(listing[..i]) + if listing[i].isFile then {listing[i].path} else {}
  {
    var more := listing[..i + 1];
    assert more[i] == listing[i];
    forall p | p in ListedFiles(listing[..i]) ensures p in ListedFiles(more) {
      var j :| 0 <= j < i && listing[..i][j].isFile && listing[..i][j].path == p;
      assert more[j].path == p;
    }
    forall p | p in ListedFiles(more) ensures p in ListedFiles(listing[..i]) || (listing[i].isFile && p == listing[i].path) {
      var j :| 0 <= j <= i && more[j].isFile && more[j].path == p;
      if j < i {
        assert listing[..i][j] == more[j];
      }
    }
  }

  lemma UnchangedOneMore(listing: seq<Created>, i: nat, files: Files)
    requires i < |listing| && UnchangedSince(listing[..i], files)
    requires listing[i].isFile && listing[i].path in files ==>
      listing[i].sha == Some(files[listing[i].path]) || listing[i].path in ListedFiles(listing[..i])
    ensures UnchangedSince(listing[..i + 1], files)
  {
    var more := listing[..i + 1];
    forall j | 0 <= j < |more| && more[j].isFile && more[j].path in files
      ensures more[j].sha == Some(files[more[j].path]) || more[j].path in ListedFiles(more[..j])
    {
      assert more[..j] == listing[..j];
      if j < i {
        assert listing[..i][j] == more[j] && listing[..i][..j] == listing[..j];
      }
    }
  }

  /** A listed file that is there, not gone with an earlier entry, and not as recorded. */
  predicate ChangedAt(listing: seq<Created>, files: Files, i: nat)
    requires i < |listing|
  {
    var item := listing[i];
    item.isFile && item.path in files && item.sha != Some(files[item.path]) && item.path !in ListedFiles(listing[..i])
  }

  function FirstChanged(listing: seq<Created>, files: Files, from: nat): (k: Option<nat>)
    requires from <= |listing|
    ensures k.Some? ==> from <= k.value < |listing| && ChangedAt(listing, files, k.value)
    ensures forall j | from <= j < (if k.Some? then k.value else |listing|) :: !ChangedAt(listing, files, j)
    decreases |listing| - from
  {
    if from == |listing| then None
    else if ChangedAt(listing, files, from) then Some(from)
    else FirstChanged(listing, files, from + 1)
  }

  /** Refused, a rollback leaves all files there: none listed before the first changed one is, or
      with none changed, none listed at all nor the journal. */
  predicate LosesNothing(listing: seq<Created>, files: Files, journal: Path) {
    match FirstChanged(listing, files, 0)
    case Some(k) => ListedFiles(listing[..k]) !! files.Keys
    case None => ListedFiles(listing) !! files.Keys && journal !in files
  }

  lemma UnchangedIff(listing: seq<Created>, files: Files)
    ensures UnchangedSince(listing, files) <==> FirstChanged(listing, files, 0).None?
  {
    if UnchangedSince(listing, files) {
      forall i | 0 <= i < |listing| ensures !ChangedAt(listing, files, i) {}
    }
    if FirstChanged(listing, files, 0).None? {
      forall i | 0 <= i < |listing| && listing[i].isFile && listing[i].path in files
        ensures listing[i].sha == Some(files[listing[i].path]) || listing[i].path in ListedFiles(listing[..i])
      {
        assert !ChangedAt(listing, files, i);
      }
    }
  }

  lemma NothingTakenIff(files: Files, taken: set<Path>)
    ensures files - taken == files <==> taken !! files.Keys
  {
    if p :| p in taken && p in files {
      assert p !in files - taken;
    }
  }

  lemma PartIsListed(listing: seq<Created>, k: nat)
    requires k <= |listing|
    ensures ListedFiles(listing[..k]) <= ListedFiles(listing)
  {
    forall p | p in ListedFiles(listing[..k]) ensures p in ListedFiles(listing) {
      var j :| 0 <= j < k && listing[..k][j].isFile && listing[..k][j].path == p;
      assert listing[j].path == p;
    }
  }

  /** Two files listed, the second changed since: the rollback is refused and the first is gone. */
  lemma RefusedRollbackLosesFile(listing: seq<Created>, files: Files, journal: Path)
    requires |listing| == 2 && listing[0].isFile && listing[1].isFile && listing[0].path != listing[1].path
    requires listing[0].path in files && listing[0].sha == Some(files[listing[0].path])
    requires listing[1].path in files && listing[1].sha != Some(files[listing[1].path])
    ensures FirstChanged(listing, files, 0) == Some(1) && ListedFiles(listing[..1]) == {listing[0].path}
    ensures !LosesNothing(listing, files, journal)
  {
    assert listing[..1] == [listing[0]];
    assert listing[..1][0].path in ListedFiles(listing[..1]);
    assert ListedFiles(listing[..1]) == {listing[0].path};
    assert ChangedAt(listing, files, 1) && !ChangedAt(listing, files, 0);
  }

  lemma FewerFilesAreWellFormed(before: Files, files: Files, dirs: set<Path>)
    requires WellFormed(before, dirs) && files.Keys <= before.Keys
    ensures WellFormed(files, dirs)
  {
  }

  lemma DeeperAreSettled(directories: seq<Path>, i: nat, files: Files, before: set<Path>, listed: set<Path>)
    requires DeepestFirst(directories) && i < |directories| && forall d :: d in directories <==> d in listed
    ensures forall e | e in before && |e| == |directories[i]| + 1 ::
      e in Settled(files, before, listed, Members(directories[..i])) <==> e !in listed || Needed(e, files, before, listed)
  {
    forall e | e in listed && |e| == |directories[i]| + 1 ensures e in directories[..i] {
      var j :| 0 <= j < |directories| && directories[j] == e;
      assert directories[..i][j] == e;
    }
  }

  lemma DirectoryIsNotBlocked(files: Files, dirs: set<Path>, d: Path)
    requires WellFormed(files, dirs) && d in dirs
    ensures d !in files && !BlockedIn(files, d)
  {
    forall n | 0 <= n < |d| ensures d[..n] !in files {
      AncestorsExist(files, dirs, d, n);
    }
  }

  lemma SettleOne(directories: seq<Path>, i: nat, files: Files, before: set<Path>, listed: set<Path>)
    requires WellFormed(files, before)
    requires DeepestFirst(directories) && i < |directories| && forall d :: d in directories <==> d in listed
    ensures var d, done := directories[i], Members(directories[..i]);
      var dirs := Settled(files, before, listed, done);
      && Members(directories[..i + 1]) == done + {d}
      && Settled(files, before, listed, done + {d}) == (if d in dirs && !HasEntry(d, files, dirs) then dirs - {d} else dirs)
      && Retained(files, before, listed, done + {d})
         == Retained(files, before, listed, done) + if Refuses(d, files, dirs) then {d} else {}
  {
    var d, done := directories[i], Members(directories[..i]);
    var dirs := Settled(files, before, listed, done);
    assert directories[..i + 1] == directories[..i] + [d];
    DeeperAreSettled(directories, i, files, before, listed);
    if d in before {
      DirectoryIsNotBlocked(files, before, d);
      HasEntryIffNeeded(d, files, before, dirs, listed);
    }
    SettledGrows(files, before, listed, done, d);
  }

  lemma SettledGrows(files: Files, before: set<Path>, listed: set<Path>, done: set<Path>, d: Path)
    ensures Settled(files, before, listed, done + {d})
      == if d in before && !Needed(d, files, before, listed) then Settled(files, before, listed, done) - {d}
         else Settled(files, before, listed, done)
    ensures Retained(files, before, listed, done + {d})
      == Retained(files, before, listed, done)
         + if (if d in before then Needed(d, files, before, listed) else d in files || BlockedIn(files, d)) then {d} else {}
  {
  }

  lemma KeptIsWellFormed(files: Files, dirs: set<Path>, listed: set<Path>)
    requires WellFormed(files, dirs)
    ensures WellFormed(files, KeptDirs(files, dirs, listed))
  {
    var kept := KeptDirs(files, dirs, listed);
    forall p | p in files ensures p[..|p| - 1] in kept {
      assert Beneath(p[..|p| - 1], p);
    }
    forall p | p in kept && p != [] ensures p[..|p| - 1] in kept {
      var parent := p[..|p| - 1];
      assert Beneath(parent, p);
      if p in listed {
        if f :| f in files && Beneath(p, f) {
          BeneathTransitive(parent, p, f);
        } else {
          var e :| e in dirs && Beneath(p, e) && e !in listed;
          BeneathTransitive(parent, p, e);
        }
      }
    }
  }

  // ---- what a rollback restores ----

  predicate Grown(files0: Files, dirs0: set<Path>, files: Files, dirs: set<Path>) {
    && WellFormed(files0, dirs0) && WellFormed(files, dirs)
    && dirs0 <= dirs && forall p | p in files0 :: p in files && files[p] == files0[p]
  }

  /** A completed rollback gives back exactly what was there before the initialisation began if
      and only if nothing that was there is listed as created (a directory may be, if it is not
      left empty) and everything that came since is. */
  lemma RollbackRestoresIff(files0: Files, dirs0: set<Path>, files: Files, dirs: set<Path>,
                            listedFiles: set<Path>, listed: set<Path>)
    requires Grown(files0, dirs0, files, dirs)
    ensures (files - listedFiles == files0 && KeptDirs(files - listedFiles, dirs, listed) == dirs0) <==>
      && files0.Keys !! listedFiles && files.Keys - files0.Keys <= listedFiles
      && dirs - dirs0 <= listed && forall d | d in dirs0 && d in listed :: Needed(d, files0, dirs0, listed)
  {
    var left := files - listedFiles;
    if left == files0 {
      OldStays(files0, dirs0, dirs, listed);
    }
    if files0.Keys !! listedFiles && files.Keys - files0.Keys <= listedFiles {
      assert left.Keys == files0.Keys;
    }
  }

  lemma OldStays(files0: Files, dirs0: set<Path>, dirs: set<Path>, listed: set<Path>)
    requires WellFormed(files0, dirs0) && dirs0 <= dirs
    ensures KeptDirs(files0, dirs, listed) == dirs0 <==>
      dirs - dirs0 <= listed && forall d | d in dirs0 && d in listed :: Needed(d, files0, dirs0, listed)
  {
    var kept := KeptDirs(files0, dirs, listed);
    if dirs - dirs0 <= listed {
      forall d | d in dirs && Needed(d, files0, dirs, listed) ensures d in dirs0 && Needed(d, files0, dirs0, listed) {
        if f :| f in files0 && Beneath(d, f) {
          FileAncestorsExist(files0, dirs0, f, |d|);
        } else {
          var e :| e in dirs && Beneath(d, e) && e !in listed;
          assert e in dirs0;
          AncestorsExist(files0, dirs0, e, |d|);
        }
      }
      forall d | d in dirs0 && Needed(d, files0, dirs0, listed) ensures Needed(d, files0, dirs, listed) {}
    }
    if kept == dirs0 {
      forall d | d in dirs - dirs0 ensures d in listed {}
    }
  }

  // ---- recording ----

  predicate RecordedAsTheyAre(listing: seq<Created>, files: Files) {
    forall i | 0 <= i < |listing| && listing[i].isFile && listing[i].path in files ::
      listing[i].sha == Some(files[listing[i].path])
  }

  function EntryOf(listing: seq<Created>, path: Path): (i: nat)
    ensures i <= |listing| && (i < |listing| ==> listing[i].path == path)
    ensures forall j | 0 <= j < i :: listing[j].path != path
  {
    if listing == [] || listing[0].path == path then 0 else 1 + EntryOf(listing[1..], path)
  }

  function Recorded(listing: seq<Created>, path: Path, digest: string): seq<Created> {
    var i := EntryOf(listing, path);
    if i < |listing| then listing[i := listing[i].(sha := Some(digest))]
    else listing + [Created(path, true, Some(digest))]
  }

  lemma EntryIsFirst(listing: seq<Created>, path: Path, i: nat)
    requires i <= |listing| && (i < |listing| ==> listing[i].path == path)
    requires forall j | 0 <= j < i :: listing[j].path != path
    ensures EntryOf(listing, path) == i
  {
  }

  /** Every path is listed once. */
  predicate ListedOnce(listing: seq<Created>) {
    forall i, j | 0 <= i < j < |listing| :: listing[i].path != listing[j].path
  }

  lemma RecordedKeepsListing(listing: seq<Created>, path: Path, digest: string, files: Files, dirs: set<Path>)
    requires RecordedAsTheyAre(listing, files) && ListedOnce(listing)
    requires path !in dirs && ListedDirs(listing) <= dirs
    ensures var more := Recorded(listing, path, digest);
      && ListedFiles(more) == ListedFiles(listing) + {path} && ListedDirs(more) == ListedDirs(listing)
      && ListedOnce(more) && RecordedAsTheyAre(more, files[path := digest])
  {
    var i, more := EntryOf(listing, path), Recorded(listing, path, digest);
    if i < |listing| {
      assert listing[i].isFile;
      forall j | 0 <= j < |listing| ensures more[j].path == listing[j].path && more[j].isFile == listing[j].isFile {}
    } else {
      forall j | 0 <= j < |listing| ensures more[j] == listing[j] {}
      assert more[|listing|].isFile && more[|listing|].path == path;
    }
    SameEntries(listing, more, path);
  }

  lemma SameEntries(listing: seq<Created>, more: seq<Created>, path: Path)
    requires |listing| <= |more| <= |listing| + 1
    requires forall j | 0 <= j < |listing| :: more[j].path == listing[j].path && more[j].isFile == listing[j].isFile
    requires |more| > |listing| ==> more[|listing|].isFile && more[|listing|].path == path
    requires |more| == |listing| ==> path in ListedFiles(listing)
    ensures ListedFiles(more) == ListedFiles(listing) + {path} && ListedDirs(more) == ListedDirs(listing)
  {
    forall p | p in ListedFiles(listing) ensures p in ListedFiles(more) {
      var j :| 0 <= j < |listing| && listing[j].isFile && listing[j].path == p;
      assert more[j].isFile && more[j].path == p;
    }
    forall p | p in ListedDirs(listing) ensures p in ListedDirs(more) {
      var j :| 0 <= j < |listing| && !listing[j].isFile && listing[j].path == p;
      assert !more[j].isFile && more[j].path == p;
    }
    forall p | p in ListedFiles(more) ensures p in ListedFiles(listing) + {path} {
      var j :| 0 <= j < |more| && more[j].isFile && more[j].path == p;
      if j < |listing| {
        assert listing[j].isFile && listing[j].path == p;
      }
    }
    forall p | p in ListedDirs(more) ensures p in ListedDirs(listing) {
      var j :| 0 <= j < |more| && !more[j].isFile && more[j].path == p;
      assert listing[j].path == p;
    }
  }

  lemma JournaledRollback(files0: Files, dirs0: set<Path>, files: Files, dirs: set<Path>, listing: seq<Created>, own: set<Path>)
    requires Grown(files0, dirs0, files, dirs)
    requires own !! files0.Keys && ListedFiles(listing) !! files0.Keys
    requires files.Keys <= files0.Keys + ListedFiles(listing) + own
    requires ListedDirs(listing) == dirs - dirs0 && RecordedAsTheyAre(listing, files)
    ensures UnchangedSince(listing, files)
    ensures files - (ListedFiles(listing) + own) == files0
    ensures KeptDirs(files0, dirs, ListedDirs(listing)) == dirs0
  {
    RollbackRestoresIff(files0, dirs0, files, dirs, ListedFiles(listing) + own, ListedDirs(listing));
  }
}
