/** Following redirects from entity to entity: a partial function, possibly cyclic. */
module Redirects {
  import opened Outcomes

  /** Generated resource ids are never empty. */
  type EntityId = s: string | s != "" witness "e"

  type Links = map<EntityId, EntityId>

  /** Where `n` redirects lead from `e`, if there are that many. */
  function Follow(r: Links, e: EntityId, n: nat): Option<EntityId>
    decreases n
  {
    if n == 0 then Some(e)
    else if e in r then Follow(r, r[e], n - 1)
    else None
  }

  ghost predicate Reaches(r: Links, from: EntityId, to: EntityId) {
    exists n: nat :: Follow(r, from, n) == Some(to)
  }

  /** At least one redirect leads on from one to the other. */
  ghost predicate LeadsOn(r: Links, from: EntityId, to: EntityId) {
    exists n: nat :: n > 0 && Follow(r, from, n) == Some(to)
  }

  ghost predicate Acyclic(r: Links) {
    forall e: EntityId :: !LeadsOn(r, e, e)
  }

  lemma {:induction false} FollowAdds(r: Links, e: EntityId, m: nat, n: nat)
    ensures Follow(r, e, m + n) == if Follow(r, e, m).Some? then Follow(r, Follow(r, e, m).value, n) else None
    decreases m
  {
    if m > 0 && e in r {
      FollowAdds(r, r[e], m - 1, n);
    }
  }

  lemma OneMoreStep(r: Links, e: EntityId, n: nat)
    requires Follow(r, e, n).Some?
    ensures var at := Follow(r, e, n).value;
      Follow(r, e, n + 1) == if at in r then Some(r[at]) else None
  {
    FollowAdds(r, e, n, 1);
    var at := Follow(r, e, n).value;
    if at in r {
      assert Follow(r, at, 1) == Follow(r, r[at], 0);
    }
  }

  /** A walk along redirects. */
  predicate Chain(r: Links, path: seq<EntityId>) {
    path != [] && forall i | 0 <= i < |path| - 1 :: path[i] in r && r[path[i]] == path[i + 1]
  }

  lemma {:induction false} FollowChain(r: Links, path: seq<EntityId>, n: nat)
    requires Chain(r, path) && n < |path|
    ensures Follow(r, path[0], n) == Some(path[n])
  {
    if n > 0 {
      FollowChain(r, path, n - 1);
      OneMoreStep(r, path[0], n - 1);
    }
  }

  lemma DeadEnd(r: Links, path: seq<EntityId>, source: EntityId)
    requires Chain(r, path) && path[|path| - 1] !in r && source !in path
    ensures !Reaches(r, path[0], source)
  {
    var last := |path| - 1;
    forall n: nat ensures Follow(r, path[0], n) != Some(source) {
      FollowChain(r, path, if n < last then n else last);
      if n > last {
        OneMoreStep(r, path[0], last);
        FollowAdds(r, path[0], last + 1, n - last - 1);
      }
    }
  }

  /** A walk that comes back to where it has been never leaves. */
  lemma {:induction false} WalkStays(r: Links, path: seq<EntityId>, back: nat, n: nat) returns (i: nat)
    requires Chain(r, path) && back < |path| - 1 && path[back] == path[|path| - 1]
    ensures i < |path| - 1 && Follow(r, path[0], n) == Some(path[i])
    decreases n
  {
    if n == 0 {
      i := 0;
    } else {
      i := WalkStays(r, path, back, n - 1);
      OneMoreStep(r, path[0], n - 1);
      assert r[path[i]] == path[i + 1];
      i := if i + 1 < |path| - 1 then i + 1 else back;
    }
  }

  lemma WalkLoops(r: Links, trail: seq<EntityId>, current: EntityId, source: EntityId)
    requires Chain(r, trail + [current]) && current in trail && source !in trail
    ensures !Reaches(r, trail[0], source)
  {
    var path := trail + [current];
    var back :| 0 <= back < |trail| && trail[back] == current;
    forall n: nat ensures Follow(r, trail[0], n) != Some(source) {
      var i := WalkStays(r, path, back, n);
      assert path[i] == trail[i];
    }
  }

  lemma ChainGrows(r: Links, trail: seq<EntityId>, current: EntityId)
    requires Chain(r, trail + [current]) && current in r
    ensures Chain(r, trail + [current] + [r[current]])
  {
    var path := trail + [current];
    var more := path + [r[current]];
    forall i | 0 <= i < |more| - 1 ensures more[i] in r && r[more[i]] == more[i + 1] {
      if i < |path| - 1 {
        assert path[i] in r && r[path[i]] == path[i + 1];
      }
    }
  }

  /** redirectWouldCycle: it ends on any redirects, cyclic ones too, and answers whether the
      target leads to the source. */
  method RedirectWouldCycle(r: Links, source: EntityId, target: EntityId) returns (cycle: bool)
    ensures cycle <==> Reaches(r, target, source)
  {
    if source == target {
      assert Follow(r, target, 0) == Some(source);
      return true;
    }
    var current: Option<EntityId> := Some(target);
    var visited: set<EntityId> := {};
    ghost var trail: seq<EntityId> := [];
    while current.Some? && current.value !in visited
      invariant source !in trail && forall v :: v in visited <==> v in trail
      invariant current.Some? ==> Chain(r, trail + [current.value]) && (trail + [current.value])[0] == target
      invariant current.Some? ==> visited <= r.Keys
      invariant current.None? ==> !Reaches(r, target, source)
      decreases if current.Some? then |r.Keys - visited| + 1 else 0
    {
      ghost var path := trail + [current.value];
      if current.value == source {
        FollowChain(r, path, |trail|);
        return true;
      }
      ghost var before := visited;
      visited := visited + {current.value};
      if current.value in r {
        ChainGrows(r, trail, current.value);
        assert r.Keys - visited == (r.Keys - before) - {current.value};
        current := Some(r[current.value]);
      } else {
        DeadEnd(r, path, source);
        current := None;
      }
      trail := path;
    }
    if current.Some? {
      WalkLoops(r, trail, current.value, source);
    }
    return false;
  }

  // ---- one more redirect ----

  /** The walk with a redirect added is the old walk until it first meets the new source. */
  lemma {:induction false} MeetsOrAgrees(r: Links, more: Links, s: EntityId, t: EntityId, e: EntityId, n: nat) returns (k: nat)
    requires more == r[s := t]
    ensures k <= n && Follow(more, e, k) == Follow(r, e, k)
    ensures k < n ==> Follow(r, e, k) == Some(s)
    decreases n
  {
    if n == 0 || e == s {
      k := 0;
    } else if e in r {
      k := MeetsOrAgrees(r, more, s, t, r[e], n - 1);
      k := k + 1;
    } else {
      k := n;
    }
  }

  /** A cycle with the redirect added was there before, or runs through it. */
  lemma CycleWasThereOrReaches(r: Links, more: Links, s: EntityId, t: EntityId, e: EntityId, n: nat)
    requires more == r[s := t]
    requires n > 0 && Follow(more, e, n) == Some(e)
    ensures LeadsOn(r, e, e) || Reaches(r, t, s)
  {
    var k := MeetsOrAgrees(r, more, s, t, e, n);
    if k < n {
      FollowAdds(more, e, k, n - k);
      FollowAdds(more, s, n - k, k);
      assert Follow(more, s, n) == Some(s);
      assert Follow(more, t, n - 1) == Some(s);
      var m := MeetsOrAgrees(r, more, s, t, t, n - 1);
      assert Follow(r, t, m) == Some(s);
    }
  }

  lemma ReachingBackIsACycle(r: Links, more: Links, s: EntityId, t: EntityId, m: nat)
    requires more == r[s := t] && Follow(r, t, m) == Some(s)
    ensures LeadsOn(more, s, s)
  {
    var k := MeetsOrAgrees(r, more, s, t, t, m);
    assert Follow(more, t, k) == Some(s);
    assert Follow(more, s, k + 1) == Some(s);
  }

  /** The check is exactly what keeps the redirects acyclic. */
  lemma NewLinkIsSafeIff(r: Links, s: EntityId, t: EntityId)
    requires Acyclic(r)
    ensures Acyclic(r[s := t]) <==> !Reaches(r, t, s)
  {
    var more := r[s := t];
    forall e: EntityId ensures LeadsOn(more, e, e) ==> Reaches(r, t, s) {
      if n: nat :| n > 0 && Follow(more, e, n) == Some(e) {
        CycleWasThereOrReaches(r, more, s, t, e, n);
      }
    }
    if m: nat :| Follow(r, t, m) == Some(s) {
      ReachingBackIsACycle(r, more, s, t, m);
    }
  }

  // ---- following redirects to the end ----

  lemma LeadsOneFurther(r: Links, x: EntityId, e: EntityId)
    requires e in r && (x == e || LeadsOn(r, x, e))
    ensures LeadsOn(r, x, r[e])
  {
    if x == e {
      assert Follow(r, e, 1) == Follow(r, r[e], 0);
    } else {
      var m: nat :| m > 0 && Follow(r, x, m) == Some(e);
      OneMoreStep(r, x, m);
    }
  }

  lemma {:induction false} EndFrom(r: Links, e: EntityId, seen: set<EntityId>) returns (n: nat)
    requires Acyclic(r) && seen <= r.Keys
    requires forall x | x in seen :: LeadsOn(r, x, e)
    ensures n <= |r.Keys - seen|
    ensures Follow(r, e, n).Some? && Follow(r, e, n).value !in r
    decreases |r.Keys - seen|
  {
    if e !in r {
      n := 0;
    } else {
      assert e !in seen;
      assert r.Keys - (seen + {e}) == (r.Keys - seen) - {e};
      forall x | x in seen + {e} ensures LeadsOn(r, x, r[e]) {
        LeadsOneFurther(r, x, e);
      }
      n := EndFrom(r, r[e], seen + {e});
      n := n + 1;
    }
  }

  /** Without cycles every walk ends, after no more steps than there are redirects, at one
      entity that is not redirected. */
  lemma FollowingEnds(r: Links, e: EntityId) returns (n: nat)
    requires Acyclic(r)
    ensures n <= |r.Keys| && Follow(r, e, n).Some? && Follow(r, e, n).value !in r
  {
    n := EndFrom(r, e, {});
    assert r.Keys - {} == r.Keys;
  }
}
