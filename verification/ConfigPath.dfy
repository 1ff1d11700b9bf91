/** Reading, writing and removing values at dotted paths of a nested configuration table, in place
    (readPath, writePath, deletePath, parentRecord in workspace-config.ts). */
module ConfigPath {
  import opened Outcomes

  type Path = seq<string>

  /** A table; its entries change in place. */
  class Table {
    var entries: map<string, Cell>

    constructor ()
      ensures entries == map[]
    {
      entries := map[];
    }
  }

  /** Anything that is not a table is a scalar here, arrays too. */
  datatype Cell = Scalar(value: string) | Sub(table: Table)

  /** The entries of some tables at one moment. */
  type Heap = map<Table, map<string, Cell>>

  ghost function Snapshot(tables: set<Table>): Heap
    reads tables
  {
    map t | t in tables :: t.entries
  }

  /** Where a path leads from a cell. */
  ghost function Resolve(h: Heap, from: Cell, path: Path): Option<Cell>
    decreases |path|
  {
    if path == [] then Some(from)
    else if from.Sub? && from.table in h && path[0] in h[from.table] then Resolve(h, h[from.table][path[0]], path[1..])
    else None
  }

  predicate Holds(h: Heap, older t: Table, k: string, older u: Table) {
    t in h && k in h[t] && h[t][k] == Sub(u)
  }

  /** Each table lies in at most one entry, and the given one in none. */
  ghost predicate Shaped(h: Heap, root: Table) {
    && root in h
    && (forall t, k, u | Holds(h, t, k, u) :: u in h && u != root)
    && (forall t, k, t', k', u | Holds(h, t, k, u) && Holds(h, t', k', u) :: t == t' && k == k')
  }

  lemma {:induction false} ResolveOneMore(h: Heap, from: Cell, path: Path, k: string)
    ensures Resolve(h, from, path + [k]) ==
      match Resolve(h, from, path)
      case None => None
      case Some(c) => if c.Sub? && c.table in h && k in h[c.table] then Some(h[c.table][k]) else None
    decreases |path|
  {
    var longer := path + [k];
    if path == [] {
      assert longer[1..] == [];
    } else {
      assert longer[1..] == path[1..] + [k];
      if from.Sub? && from.table in h && path[0] in h[from.table] {
        ResolveOneMore(h, h[from.table][path[0]], path[1..], k);
      }
    }
  }

  lemma Unsnoc(path: Path)
    requires path != []
    ensures path == path[..|path| - 1] + [path[|path| - 1]]
  {
  }

  /** The entry a path to a table ends with. */
  lemma LastStep(h: Heap, root: Table, p: Path)
    requires p != [] && Resolve(h, Sub(root), p).Some? && Resolve(h, Sub(root), p).value.Sub?
    ensures var before := Resolve(h, Sub(root), p[..|p| - 1]);
      && before.Some? && before.value.Sub?
      && Holds(h, before.value.table, p[|p| - 1], Resolve(h, Sub(root), p).value.table)
    ensures p == p[..|p| - 1] + [p[|p| - 1]]
  {
    Unsnoc(p);
    ResolveOneMore(h, Sub(root), p[..|p| - 1], p[|p| - 1]);
  }

  /** In a shaped heap one table is reached by one path. */
  lemma {:induction false} OnePathEach(h: Heap, root: Table, p: Path, q: Path)
    requires Shaped(h, root)
    requires Resolve(h, Sub(root), p).Some? && Resolve(h, Sub(root), p).value.Sub?
    requires Resolve(h, Sub(root), p) == Resolve(h, Sub(root), q)
    ensures p == q
    decreases |p|
  {
    if p != [] && q != [] {
      LastStep(h, root, p);
      LastStep(h, root, q);
      OnePathEach(h, root, p[..|p| - 1], q[..|q| - 1]);
    } else if p != [] {
      LastStep(h, root, p);
    } else if q != [] {
      LastStep(h, root, q);
    }
  }

  // ---- one entry set or removed ----

  /** `after` is `before` with the entry `k` of `t` set, and perhaps tables added with it. */
  ghost predicate EntrySet(before: Heap, after: Heap, t: Table, k: string, c: Cell) {
    && t in before && before.Keys <= after.Keys
    && after[t] == before[t][k := c]
    && forall u | u in before && u != t :: after[u] == before[u]
  }

  ghost predicate EntryRemoved(before: Heap, after: Heap, t: Table, k: string) {
    && t in before && before.Keys == after.Keys
    && after[t] == before[t] - {k}
    && forall u | u in before && u != t :: after[u] == before[u]
  }

  /** Elsewhere an entry is as it was. */
  lemma {:induction false} OtherPathsKeep(before: Heap, after: Heap, root: Table, at: Path, t: Table, k: string, q: Path)
    requires Shaped(before, root) && Resolve(before, Sub(root), at) == Some(Sub(t))
    requires (exists c :: EntrySet(before, after, t, k, c)) || EntryRemoved(before, after, t, k)
    requires !(at + [k] <= q)
    ensures Resolve(after, Sub(root), q) == Resolve(before, Sub(root), q)
    decreases |q|
  {
    if q != [] {
      var front, last := q[..|q| - 1], q[|q| - 1];
      Unsnoc(q);
      ResolveOneMore(before, Sub(root), front, last);
      ResolveOneMore(after, Sub(root), front, last);
      assert at + [k] <= front ==> at + [k] <= q;
      OtherPathsKeep(before, after, root, at, t, k, front);
      var reached := Resolve(before, Sub(root), front);
      if reached.Some? && reached.value == Sub(t) {
        OnePathEach(before, root, front, at);
      }
      if reached.Some? && reached.value.Sub? {
        ResolvesInside(before, root, front);
      }
    }
  }

  lemma {:induction false} ResolvesInside(h: Heap, root: Table, path: Path)
    requires Shaped(h, root)
    requires Resolve(h, Sub(root), path).Some? && Resolve(h, Sub(root), path).value.Sub?
    ensures Resolve(h, Sub(root), path).value.table in h
  {
    if path != [] {
      LastStep(h, root, path);
    }
  }

  lemma {:induction false} ResolveInParts(h: Heap, from: Cell, p: Path, q: Path)
    requires Resolve(h, from, p).Some?
    ensures Resolve(h, from, p + q) == Resolve(h, Resolve(h, from, p).value, q)
    decreases |p|
  {
    if p == [] {
      assert p + q == q;
    } else {
      assert (p + q)[1..] == p[1..] + q;
      ResolveInParts(h, h[from.table][p[0]], p[1..], q);
    }
  }

  lemma {:induction false} ResolveDependsOn(some: Heap, all: Heap, from: Cell, path: Path)
    requires forall t | t in some :: t in all && all[t] == some[t]
    requires from.Sub? ==> from.table in some
    requires forall t, k, u | Holds(some, t, k, u) :: u in some
    ensures Resolve(all, from, path) == Resolve(some, from, path)
    decreases |path|
  {
    if path != [] && from.Sub? && path[0] in some[from.table] {
      var next := some[from.table][path[0]];
      assert next.Sub? ==> Holds(some, from.table, path[0], next.table);
      ResolveDependsOn(some, all, next, path[1..]);
    }
  }

  // ---- what a configuration shows ----

  datatype Shown = Absent | Value(value: string) | ATable

  function Show(c: Option<Cell>): Shown {
    match c
    case None => Absent
    case Some(Scalar(v)) => Value(v)
    case Some(Sub(_)) => ATable
  }

  /** A configuration as what it shows at each path. */
  type View = Path -> Shown

  ghost function ViewOf(h: Heap, from: Cell): View {
    q => Show(Resolve(h, from, q))
  }

  /** The view with another view put in at a path; the tables on the way are there. */
  function Put(s: View, path: Path, v: View): View {
    q => if path <= q then v(q[|path|..]) else if q < path then ATable else s(q)
  }

  function Cut(s: View, path: Path): View {
    q => if path <= q then Absent else if q < path then ATable else s(q)
  }

  /** A value that is not a table stands in the way. */
  ghost predicate Obstructed(s: View, path: Path) {
    exists n | 0 < n < |path| :: s(path[..n]).Value?
  }

  ghost predicate Same(s: View, t: View) {
    forall q: Path :: s(q) == t(q)
  }

  // ---- reading ----

  datatype PathError = PathNotFound | PathInvalid

  method ReadPath(root: Table, path: Path, ghost tables: set<Table>) returns (r: Result<Cell, PathError>)
    requires Shaped(Snapshot(tables), root)
    ensures r == match Resolve(Snapshot(tables), Sub(root), path)
                 case None => Failure(PathNotFound)
                 case Some(c) => Success(c)
  {
    ghost var h := Snapshot(tables);
    var current := Sub(root);
    var i := 0;
    while i < |path|
      invariant 0 <= i <= |path|
      invariant Resolve(h, Sub(root), path[..i]) == Some(current)
      invariant current.Sub? ==> current.table in tables
    {
      assert path[..i + 1] == path[..i] + [path[i]];
      assert path[..i] + path[i..] == path;
      ResolveInParts(h, Sub(root), path[..i], path[i..]);
      ResolveOneMore(h, Sub(root), path[..i], path[i]);
      if current.Scalar? || path[i] !in current.table.entries {
        return Failure(PathNotFound);
      }
      current := current.table.entries[path[i]];
      if current.Sub? {
        ResolvesInside(h, root, path[..i + 1]);
      }
      i := i + 1;
    }
    assert path[..i] == path;
    return Success(current);
  }

  /** `h` shows what `h0` shows, and tables on the whole way along `path`. */
  ghost predicate Opened(h0: Heap, h: Heap, root: Table, path: Path) {
    forall q: Path :: Show(Resolve(h, Sub(root), q)) == if q <= path then ATable else Show(Resolve(h0, Sub(root), q))
  }

  lemma NewTableOpens(h0: Heap, before: Heap, after: Heap, root: Table, at: Path, t: Table, k: string, made: Table)
    requires Shaped(before, root) && Opened(h0, before, root, at)
    requires t in before && Resolve(before, Sub(root), at) == Some(Sub(t)) && k !in before[t]
    requires EntrySet(before, after, t, k, Sub(made)) && made !in before && after.Keys == before.Keys + {made}
    requires after[made] == map[]
    ensures Shaped(after, root) && Opened(h0, after, root, at + [k])
    ensures Resolve(after, Sub(root), at + [k]) == Some(Sub(made))
  {
    SettingKeepsShape(before, after, root, t, k, Sub(made), map[made := map[]]);
    var path := at + [k];
    assert !(path <= at);
    OtherPathsKeep(before, after, root, at, t, k, at);
    ResolveOneMore(after, Sub(root), at, k);
    ResolveOneMore(before, Sub(root), at, k);
    forall q: Path
      ensures Show(Resolve(after, Sub(root), q)) == if q <= path then ATable else Show(Resolve(h0, Sub(root), q))
    {
      if path <= q {
        var rest := q[|path|..];
        assert q == path + rest;
        ResolveInParts(after, Sub(root), path, rest);
        AbsentBelow(before, Sub(root), path, rest);
        assert rest != [] ==> Resolve(after, Sub(made), rest).None?;
        assert !(q <= at);
      } else {
        OtherPathsKeep(before, after, root, at, t, k, q);
        assert q <= path <==> q <= at;
      }
    }
  }

  lemma {:induction false} AbsentBelow(h: Heap, from: Cell, p: Path, q: Path)
    requires Resolve(h, from, p).None?
    ensures Resolve(h, from, p + q).None?
    decreases |q|
  {
    if q == [] {
      assert p + q == p;
    } else {
      AbsentBelow(h, from, p, q[..|q| - 1]);
      assert p + q == (p + q[..|q| - 1]) + [q[|q| - 1]];
      ResolveOneMore(h, from, p + q[..|q| - 1], q[|q| - 1]);
    }
  }

  lemma TableIsThere(h0: Heap, h: Heap, root: Table, at: Path, t: Table, k: string, next: Table)
    requires Shaped(h, root) && Opened(h0, h, root, at)
    requires Resolve(h, Sub(root), at) == Some(Sub(t)) && t in h && k in h[t] && h[t][k] == Sub(next)
    ensures next in h && Opened(h0, h, root, at + [k]) && Resolve(h, Sub(root), at + [k]) == Some(Sub(next))
  {
    assert Holds(h, t, k, next);
    ResolveOneMore(h, Sub(root), at, k);
    forall q: Path
      ensures Show(Resolve(h, Sub(root), q)) == if q <= at + [k] then ATable else Show(Resolve(h0, Sub(root), q))
    {
      if q <= at + [k] && !(q <= at) {
        assert q == at + [k];
      }
    }
  }

  lemma NotYetThere(h0: Heap, h: Heap, root: Table, path: Path, i: nat, t: Table)
    requires Shaped(h, root) && i < |path| && Opened(h0, h, root, path[..i])
    requires t in h && Resolve(h, Sub(root), path[..i]) == Some(Sub(t))
    ensures path[..i + 1] == path[..i] + [path[i]]
    ensures ViewOf(h0, Sub(root))(path[..i + 1]) == Show(if path[i] in h[t] then Some(h[t][path[i]]) else None)
  {
    assert path[..i + 1] == path[..i] + [path[i]];
    ResolveOneMore(h, Sub(root), path[..i], path[i]);
    assert !(path[..i + 1] <= path[..i]);
  }

  lemma NothingOpened(h: Heap, root: Table)
    ensures Opened(h, h, root, [])
  {
    forall q: Path ensures Show(Resolve(h, Sub(root), q)) == if q <= [] then ATable else Show(Resolve(h, Sub(root), q)) {}
  }

  // ---- the operations ----

  /** parentRecord. A table is made for every missing segment, and from then on nothing can be in
      the way, so a path that is refused leaves everything as it was. */
  method ParentRecord(root: Table, path: Path, ghost tables: set<Table>)
    returns (parent: Option<Table>, ghost all: set<Table>)
    requires path != [] && Shaped(Snapshot(tables), root)
    modifies tables
    ensures parent.None? <==> Obstructed(ViewOf(old(Snapshot(tables)), Sub(root)), path)
    ensures parent.None? ==> all == tables && Snapshot(tables) == old(Snapshot(tables))
    ensures parent.Some? ==>
      && tables <= all && fresh(all - tables) && parent.value in all
      && Shaped(Snapshot(all), root)
      && Opened(old(Snapshot(tables)), Snapshot(all), root, path[..|path| - 1])
      && Resolve(Snapshot(all), Sub(root), path[..|path| - 1]) == Some(Sub(parent.value))
  {
    ghost var h0 := Snapshot(tables);
    var current := root;
    all := tables;
    var i := 0;
    NothingOpened(h0, root);
    while i < |path| - 1
      invariant 0 <= i <= |path| - 1
      invariant tables <= all && fresh(all - tables)
      invariant ReachedTable(h0, all, root, path[..i], current)
      invariant forall n | 0 < n <= i :: !ViewOf(h0, Sub(root))(path[..n]).Value?
      invariant (all == tables && Snapshot(tables) == h0) || current.entries == map[]
    {
      ghost var before := Snapshot(all);
      NotYetThere(h0, before, root, path, i, current);
      var segment := path[i];
      if segment !in current.entries {
        current := MakeTable(root, current, segment, h0, all, path[..i]);
        all := all + {current};
      } else {
        var next := current.entries[segment];
        if next.Scalar? {
          return None, all;
        }
        TableIsThere(h0, before, root, path[..i], current, segment, next.table);
        current := next.table;
      }
      i := i + 1;
    }
    return Some(current), all;
  }

  /** `current[segment] = {}`. */
  method MakeTable(root: Table, current: Table, segment: string, ghost h0: Heap, ghost all: set<Table>, ghost at: Path)
    returns (made: Table)
    requires ReachedTable(h0, all, root, at, current) && segment !in current.entries
    modifies current
    ensures fresh(made) && made.entries == map[]
    ensures ReachedTable(h0, all + {made}, root, at + [segment], made)
  {
    ghost var before := Snapshot(all);
    made := new Table();
    current.entries := current.entries[segment := Sub(made)];
    NewTableOpens(h0, before, Snapshot(all + {made}), root, at, current, segment, made);
  }

  ghost predicate ReachedTable(h0: Heap, all: set<Table>, root: Table, path: Path, t: Table)
    reads all
  {
    && t in all && Shaped(Snapshot(all), root) && Opened(h0, Snapshot(all), root, path)
    && Resolve(Snapshot(all), Sub(root), path) == Some(Sub(t))
  }

  // ---- writing ----

  lemma EntriesAfterSetting(before: Heap, after: Heap, t: Table, k: string, c: Cell, values: Heap, u: Table, l: string, x: Table)
    requires EntrySet(before, after, t, k, c) && after.Keys == before.Keys + values.Keys
    requires values.Keys !! before.Keys && forall u | u in values :: after[u] == values[u]
    ensures Holds(after, u, l, x) <==>
      if u == t && l == k then c == Sub(x) else Holds(before, u, l, x) || Holds(values, u, l, x)
  {
  }

  lemma SettingKeepsShape(before: Heap, after: Heap, root: Table, t: Table, k: string, c: Cell, values: Heap)
    requires Shaped(before, root) && EntrySet(before, after, t, k, c)
    requires values.Keys !! before.Keys && after.Keys == before.Keys + values.Keys
    requires forall u | u in values :: after[u] == values[u]
    requires if c.Sub? then Shaped(values, c.table) else values == map[]
    ensures Shaped(after, root)
  {
    forall u, l, x | Holds(after, u, l, x) ensures x in after && x != root {
      EntriesAfterSetting(before, after, t, k, c, values, u, l, x);
    }
    forall u, l, v, m, x | Holds(after, u, l, x) && Holds(after, v, m, x) ensures u == v && l == m {
      EntriesAfterSetting(before, after, t, k, c, values, u, l, x);
      EntriesAfterSetting(before, after, t, k, c, values, v, m, x);
    }
  }

  lemma SettingPuts(h0: Heap, before: Heap, after: Heap, root: Table, path: Path, t: Table, c: Cell, values: Heap)
    requires path != [] && Shaped(before, root) && Opened(h0, before, root, path[..|path| - 1])
    requires Resolve(before, Sub(root), path[..|path| - 1]) == Some(Sub(t))
    requires EntrySet(before, after, t, path[|path| - 1], c)
    requires forall u | u in values :: u in after && after[u] == values[u]
    requires if c.Sub? then Shaped(values, c.table) else values == map[]
    ensures Same(ViewOf(after, Sub(root)), Put(ViewOf(h0, Sub(root)), path, ViewOf(values, c)))
  {
    var at, k := path[..|path| - 1], path[|path| - 1];
    Unsnoc(path);
    OtherPathsKeep(before, after, root, at, t, k, at);
    ResolveOneMore(after, Sub(root), at, k);
    forall q: Path
      ensures ViewOf(after, Sub(root))(q) == Put(ViewOf(h0, Sub(root)), path, ViewOf(values, c))(q)
    {
      if path <= q {
        var rest := q[|path|..];
        assert q == path + rest;
        ResolveInParts(after, Sub(root), path, rest);
        ResolveDependsOn(values, after, c, rest);
      } else {
        OtherPathsKeep(before, after, root, at, t, k, q);
        assert q < path <==> q <= at;
      }
    }
  }

  /** writePath. The value may itself be a table, with tables of its own that nothing else holds. */
  method WritePath(root: Table, path: Path, value: Cell, ghost tables: set<Table>, ghost valueTables: set<Table>)
    returns (outcome: Outcome<PathError>, ghost all: set<Table>)
    requires path != [] && Shaped(Snapshot(tables), root) && tables !! valueTables
    requires value.Sub? ==> Shaped(Snapshot(valueTables), value.table)
    requires value.Scalar? ==> valueTables == {}
    modifies tables
    ensures outcome.Fail? <==> Obstructed(ViewOf(old(Snapshot(tables)), Sub(root)), path)
    ensures outcome.Fail? ==> all == tables && Snapshot(tables) == old(Snapshot(tables))
    ensures outcome.Pass? ==>
      && tables + valueTables <= all && fresh(all - tables - valueTables) && Shaped(Snapshot(all), root)
      && Same(ViewOf(Snapshot(all), Sub(root)),
              Put(ViewOf(old(Snapshot(tables)), Sub(root)), path, ViewOf(old(Snapshot(valueTables)), value)))
  {
    ghost var h0, values := Snapshot(tables), Snapshot(valueTables);
    var parent;
    parent, all := ParentRecord(root, path, tables);
    if parent.None? {
      return Fail(PathInvalid), all;
    }
    ghost var before := Snapshot(all);
    var t := parent.value;
    t.entries := t.entries[path[|path| - 1] := value];
    all := all + valueTables;
    assert Snapshot(valueTables) == values;
    SettingKeepsShape(before, Snapshot(all), root, t, path[|path| - 1], value, values);
    SettingPuts(h0, before, Snapshot(all), root, path, t, value, values);
    outcome := Pass;
  }

  // ---- removing ----

  lemma RemovingKeepsShape(before: Heap, after: Heap, root: Table, t: Table, k: string)
    requires Shaped(before, root) && EntryRemoved(before, after, t, k)
    ensures Shaped(after, root)
  {
    forall u, l, x | Holds(after, u, l, x) ensures Holds(before, u, l, x) {}
  }

  lemma RemovingCuts(h0: Heap, before: Heap, after: Heap, root: Table, path: Path, t: Table)
    requires path != [] && Shaped(before, root) && Opened(h0, before, root, path[..|path| - 1])
    requires Resolve(before, Sub(root), path[..|path| - 1]) == Some(Sub(t))
    requires EntryRemoved(before, after, t, path[|path| - 1])
    ensures Same(ViewOf(after, Sub(root)), Cut(ViewOf(h0, Sub(root)), path))
  {
    var at, k := path[..|path| - 1], path[|path| - 1];
    Unsnoc(path);
    OtherPathsKeep(before, after, root, at, t, k, at);
    ResolveOneMore(after, Sub(root), at, k);
    forall q: Path
      ensures ViewOf(after, Sub(root))(q) == Cut(ViewOf(h0, Sub(root)), path)(q)
    {
      if path <= q {
        assert q == path + q[|path|..];
        AbsentBelow(after, Sub(root), path, q[|path|..]);
      } else {
        OtherPathsKeep(before, after, root, at, t, k, q);
        assert q < path <==> q <= at;
      }
    }
  }

  /** deletePath: the way to the entry is made even if there was nothing to remove. */
  method DeletePath(root: Table, path: Path, ghost tables: set<Table>)
    returns (outcome: Outcome<PathError>, ghost all: set<Table>)
    requires path != [] && Shaped(Snapshot(tables), root)
    modifies tables
    ensures outcome.Fail? <==> Obstructed(ViewOf(old(Snapshot(tables)), Sub(root)), path)
    ensures outcome.Fail? ==> all == tables && Snapshot(tables) == old(Snapshot(tables))
    ensures outcome.Pass? ==>
      && tables <= all && fresh(all - tables) && Shaped(Snapshot(all), root)
      && Same(ViewOf(Snapshot(all), Sub(root)), Cut(ViewOf(old(Snapshot(tables)), Sub(root)), path))
  {
    ghost var h0 := Snapshot(tables);
    var parent;
    parent, all := ParentRecord(root, path, tables);
    if parent.None? {
      return Fail(PathInvalid), all;
    }
    ghost var before := Snapshot(all);
    var t := parent.value;
    t.entries := t.entries - {path[|path| - 1]};
    RemovingKeepsShape(before, Snapshot(all), root, t, path[|path| - 1]);
    RemovingCuts(h0, before, Snapshot(all), root, path, t);
    outcome := Pass;
  }

  // ---- laws ----

  /** Neither path is on the way to the other. */
  predicate Unrelated(p: Path, q: Path) {
    !(p <= q) && !(q <= p)
  }

  /** What is written is read back, whole. */
  lemma ReadsBack(s: View, path: Path, v: View, q: Path)
    ensures Put(s, path, v)(path + q) == v(q)
    ensures Cut(s, path)(path + q) == Absent
  {
  }

  /** Writing or removing at a path changes nothing at an unrelated one, nor anything below it,
      nor whether it can be written. */
  lemma UnrelatedUntouched(s: View, path: Path, v: View, q: Path, below: Path)
    requires Unrelated(path, q) && !Obstructed(s, path)
    ensures Put(s, path, v)(q + below) == Cut(s, path)(q + below) == s(q + below)
    ensures Obstructed(Put(s, path, v), q) <==> Obstructed(s, q)
    ensures Obstructed(Cut(s, path), q) <==> Obstructed(s, q)
  {
    assert q <= q + below;
    PrefixesOfOne(path, q, q + below);
    BelowOneIsNotAboveOther(q, path, q + below);
    forall n | 0 < n < |q| ensures Put(s, path, v)(q[..n]).Value? <==> s(q[..n]).Value?
      ensures Cut(s, path)(q[..n]).Value? <==> s(q[..n]).Value?
    {
      var p := q[..n];
      assert path <= p ==> path <= q;
      if p < path {
        assert path[..n] == p && n < |path|;
      }
    }
  }

  lemma PrefixesOfOne(p: Path, q: Path, whole: Path)
    requires Unrelated(p, q) && q <= whole
    ensures !(p <= whole)
  {
  }

  /** Writing a value at a path, or removing what is there. */
  datatype Edit = Write(view: View) | Remove

  /** What an attempt comes to: a refused one changes nothing. */
  ghost function Edited(s: View, path: Path, e: Edit): View {
    if Obstructed(s, path) then s
    else match e case Write(v) => Put(s, path, v) case Remove => Cut(s, path)
  }

  lemma RefusalsAreIndependent(s: View, p: Path, d: Edit, q: Path)
    requires Unrelated(p, q)
    ensures Obstructed(Edited(s, p, d), q) <==> Obstructed(s, q)
  {
    if !Obstructed(s, p) {
      UnrelatedUntouched(s, p, if d.Write? then d.view else s, q, []);
    }
  }

  /** Attempts at unrelated paths commute, refused ones included: in either order each is refused
      or goes through alike, and the same is shown in the end. */
  lemma EditsCommute(s: View, p: Path, d: Edit, q: Path, e: Edit)
    requires Unrelated(p, q)
    ensures Obstructed(Edited(s, p, d), q) <==> Obstructed(s, q)
    ensures Obstructed(Edited(s, q, e), p) <==> Obstructed(s, p)
    ensures Same(Edited(Edited(s, p, d), q, e), Edited(Edited(s, q, e), p, d))
  {
    RefusalsAreIndependent(s, p, d, q);
    RefusalsAreIndependent(s, q, e, p);
  }

  lemma BelowOneIsNotAboveOther(p: Path, q: Path, x: Path)
    requires Unrelated(p, q) && p <= x
    ensures !(x <= q)
  {
  }

  /** The last write at a path decides, whatever was written or removed there before. */
  lemma LastWriteWins(s: View, path: Path, v: View, w: View)
    ensures Same(Put(Put(s, path, v), path, w), Put(s, path, w))
    ensures Same(Cut(Put(s, path, v), path), Cut(s, path))
    ensures Same(Put(Cut(s, path), path, w), Put(s, path, w))
  {
  }

  /** A view as a tree of tables shows it: nothing lies below a value or below nothing. */
  ghost predicate TreeLike(s: View) {
    s([]) == ATable && forall q: Path, k: string :: s(q) != ATable ==> s(q + [k]) == Absent
  }

  lemma ShapedIsTreeLike(h: Heap, root: Table)
    ensures TreeLike(ViewOf(h, Sub(root)))
  {
    forall q: Path, k: string ensures ViewOf(h, Sub(root))(q) != ATable ==> ViewOf(h, Sub(root))(q + [k]) == Absent {
      ResolveOneMore(h, Sub(root), q, k);
    }
  }

  lemma {:induction false} AbsentThroughout(s: View, p: Path, q: Path)
    requires TreeLike(s) && s(p) == Absent
    ensures s(p + q) == Absent
    decreases |q|
  {
    if q == [] {
      assert p + q == p;
    } else {
      AbsentThroughout(s, p, q[..|q| - 1]);
      assert p + q == (p + q[..|q| - 1]) + [q[|q| - 1]];
    }
  }

  /** Removing a path that shows nothing is not always without effect: it changes nothing exactly
      when the table it would be in is there. */
  lemma RemovingNothingIff(s: View, path: Path)
    requires TreeLike(s) && path != [] && s(path) == Absent && !Obstructed(s, path)
    ensures Same(Cut(s, path), s) <==> s(path[..|path| - 1]) == ATable
  {
    var parent := path[..|path| - 1];
    assert parent < path && !(path <= parent);
    assert Cut(s, path)(parent) == ATable;
    if s(parent) == ATable {
      forall q: Path ensures Cut(s, path)(q) == s(q) {
        if path <= q {
          AbsentThroughout(s, path, q[|path|..]);
          assert q == path + q[|path|..];
        } else if q < path {
          TablesAbove(s, parent, |q|);
          assert parent[..|q|] == q;
        }
      }
    }
  }

  lemma {:induction false} TablesAbove(s: View, p: Path, n: nat)
    requires TreeLike(s) && s(p) == ATable && n <= |p|
    ensures s(p[..n]) == ATable
    decreases |p| - n
  {
    if n == |p| {
      assert p[..n] == p;
    } else {
      TablesAbove(s, p, n + 1);
      assert p[..n + 1] == p[..n] + [p[n]];
    }
  }
}
