/** The code-unit order JavaScript sorts strings by, and sorting without duplicates. */
module Ordering {
  predicate Less(a: string, b: string) {
    if b == "" then false
    else if a == "" then true
    else if a[0] != b[0] then a[0] < b[0]
    else Less(a[1..], b[1..])
  }

  lemma {:induction false} LessTransitive(a: string, b: string, c: string)
    requires Less(a, b) && Less(b, c)
    ensures Less(a, c)
  {
    if a != "" && a[0] == b[0] == c[0] {
      LessTransitive(a[1..], b[1..], c[1..]);
    }
  }

  lemma {:induction false} LessIrreflexive(a: string)
    ensures !Less(a, a)
  {
    if a != "" {
      LessIrreflexive(a[1..]);
    }
  }

  lemma {:induction false} LessTotal(a: string, b: string)
    ensures a == b || Less(a, b) || Less(b, a)
  {
    if a != "" && b != "" && a[0] == b[0] {
      LessTotal(a[1..], b[1..]);
      assert a == [a[0]] + a[1..] && b == [b[0]] + b[1..];
    }
  }

  ghost predicate StrictlySorted(s: seq<string>) {
    forall i, j | 0 <= i < j < |s| :: Less(s[i], s[j])
  }

  function Members(s: seq<string>): set<string> {
    set x | x in s
  }

  lemma StrictlySortedIsDistinct(s: seq<string>, i: nat, j: nat)
    requires StrictlySorted(s) && i < j < |s|
    ensures s[i] != s[j]
  {
    LessIrreflexive(s[i]);
  }

  /** Insert into a strictly sorted list, unless it is there already. */
  function Insert(x: string, s: seq<string>): (r: seq<string>)
    requires StrictlySorted(s)
    ensures StrictlySorted(r)
    ensures Members(r) == Members(s) + {x}
  {
    if s == [] then [x]
    else if x == s[0] then s
    else if Less(x, s[0]) then
      assert forall k | 0 <= k < |s| :: Less(x, s[k]) by {
        forall k | 0 <= k < |s| ensures Less(x, s[k]) {
          if k > 0 {
            LessTransitive(x, s[0], s[k]);
          }
        }
      }
      [x] + s
    else
      var rest := Insert(x, s[1..]);
      LessTotal(x, s[0]);
      assert Members(s) == Members(s[1..]) + {s[0]} by {
        assert s == [s[0]] + s[1..];
      }
      assert forall y | y in rest :: Less(s[0], y) by {
        forall y | y in rest ensures Less(s[0], y) {
          assert y in Members(rest);
          if y != x {
            assert y in Members(s[1..]);
          }
        }
      }
      assert Members([s[0]] + rest) == Members(rest) + {s[0]};
      [s[0]] + rest
  }

  /** uniqueIds: each value once, in order. */
  function UniqueSorted(s: seq<string>): (r: seq<string>)
    ensures StrictlySorted(r)
    ensures Members(r) == Members(s)
  {
    if s == [] then []
    else
      assert s == s[..|s| - 1] + [s[|s| - 1]];
      Insert(s[|s| - 1], UniqueSorted(s[..|s| - 1]))
  }

  /** A strictly sorted list is determined by its members. */
  lemma {:induction false} SortedIsCanonical(a: seq<string>, b: seq<string>)
    requires StrictlySorted(a) && StrictlySorted(b)
    requires Members(a) == Members(b)
    ensures a == b
  {
    assert b != [] ==> b[0] in Members(b);
    if a != [] {
      assert a[0] in Members(b);
      assert b != [];
      assert b[0] in Members(a);
      HeadIsLeast(a, b[0]);
      HeadIsLeast(b, a[0]);
      assert a[0] == b[0] by {
        if a[0] != b[0] {
          LessTransitive(a[0], b[0], a[0]);
          LessIrreflexive(a[0]);
        }
      }
      TailMembers(a);
      TailMembers(b);
      SortedIsCanonical(a[1..], b[1..]);
      assert a == [a[0]] + a[1..] && b == [b[0]] + b[1..];
    }
  }

  lemma HeadIsLeast(s: seq<string>, x: string)
    requires StrictlySorted(s) && x in Members(s)
    ensures s != [] && (x == s[0] || Less(s[0], x))
  {
    var i :| 0 <= i < |s| && s[i] == x;
  }

  lemma TailMembers(s: seq<string>)
    requires s != [] && StrictlySorted(s)
    ensures Members(s[1..]) == Members(s) - {s[0]}
  {
    assert s == [s[0]] + s[1..];
    assert s[0] !in s[1..] by {
      if i :| 0 <= i < |s[1..]| && s[1..][i] == s[0] {
        StrictlySortedIsDistinct(s, 0, i + 1);
      }
    }
  }
}
