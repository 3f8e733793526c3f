/** Rescan roots: ordering them by their text so that one pass keeps only the outermost, and walking parents to test a path. */
module RootCoalescing {
  import opened Words

  const SEPARATOR: Byte := 47

  /** One name of a cleaned path. */
  type Component = c: seq<Byte> | c != [] && SEPARATOR !in c witness [65]

  /** A cleaned absolute path by its names; the root has none. */
  type Path = seq<Component>

  predicate Within(path: Path, root: Path) { root <= path }

  /** The path's text followed by a separator. */
  function Text(p: Path): (t: seq<Byte>)
    ensures t != [] && t[0] == SEPARATOR
  {
    if p == [] then [SEPARATOR] else [SEPARATOR] + p[0] + Text(p[1..])
  }

  /** What the sort compares. Only the root's own text already ends in its separator. */
  function Key(p: Path): (t: seq<Byte>)
  {
    if p == [] then [SEPARATOR, SEPARATOR] else Text(p)
  }

  // ---------------------------------------------------------------- byte order

  predicate Before(a: seq<Byte>, b: seq<Byte>)
  {
    a == [] || (b != [] && (a[0] < b[0] || (a[0] == b[0] && Before(a[1..], b[1..]))))
  }

  lemma {:induction false} BeforeOrAfter(a: seq<Byte>, b: seq<Byte>)
    ensures Before(a, b) || Before(b, a)
  {
    if a != [] && b != [] { BeforeOrAfter(a[1..], b[1..]); }
  }

  lemma {:induction false} BeforeChains(a: seq<Byte>, b: seq<Byte>, c: seq<Byte>)
    requires Before(a, b) && Before(b, c)
    ensures Before(a, c)
  {
    if a != [] && b[0] == a[0] == c[0] { BeforeChains(a[1..], b[1..], c[1..]); }
  }

  lemma {:induction false} BothWaysIsEqual(a: seq<Byte>, b: seq<Byte>)
    requires Before(a, b) && Before(b, a)
    ensures a == b
  {
    if a != [] { BothWaysIsEqual(a[1..], b[1..]); }
  }

  lemma {:induction false} PrefixIsBefore(a: seq<Byte>, b: seq<Byte>)
    requires a <= b
    ensures Before(a, b)
  {
    if a != [] { PrefixIsBefore(a[1..], b[1..]); }
  }

  /** Texts that begin alike stand together: anything between a prefix and its extension extends it too. */
  lemma {:induction false} PrefixesAreContiguous(k: seq<Byte>, x: seq<Byte>, y: seq<Byte>)
    requires Before(k, x) && Before(x, y) && k <= y
    ensures k <= x
  {
    if k != [] {
      assert k[0] == x[0] == y[0];
      PrefixesAreContiguous(k[1..], x[1..], y[1..]);
      assert k == [k[0]] + k[1..] && x == [x[0]] + x[1..];
    }
  }

  /** The trailing separator makes a textual prefix the same thing as an ancestor: a-x no longer hides between a and a/child. */
  lemma {:induction false} TextPrefixIsAncestor(r: Path, p: Path)
    ensures Text(r) <= Text(p) <==> r <= p
  {
    if r == [] {
      assert Text(r) == [SEPARATOR] && Text(p) == [SEPARATOR] + Text(p)[1..];
    } else if p != [] {
      var c, d, a, b := r[0], p[0], Text(r[1..]), Text(p[1..]);
      TextPrefixIsAncestor(r[1..], p[1..]);
      assert r == [c] + r[1..] && p == [d] + p[1..];
      if Text(r) <= Text(p) {
        SameFirstName(c, d, a, b);
        assert r[1..] <= p[1..];
      }
      if r <= p {
        assert Text(p) == Text(r) + b[|a|..];
      }
    }
  }

  lemma SameFirstName(c: Component, d: Component, a: seq<Byte>, b: seq<Byte>)
    requires a != [] && b != [] && a[0] == SEPARATOR == b[0]
    requires [SEPARATOR] + c + a <= [SEPARATOR] + d + b
    ensures c == d && a <= b
  {
    var s, t := [SEPARATOR] + c + a, [SEPARATOR] + d + b;
    assert forall k :: 0 <= k < |s| ==> s[k] == t[k];
    assert s[|c| + 1] == SEPARATOR && t[|d| + 1] == SEPARATOR;
    assert forall k :: 1 <= k <= |c| ==> s[k] in c;
    assert forall k :: 1 <= k <= |d| ==> t[k] in d;
    assert s[1..][..|c|] == c && t[1..][..|d|] == d;
    assert s[|c| + 1..] == a && t[|d| + 1..] == b;
  }

  // ---------------------------------------------------------------- the sort

  ghost predicate Ordered(s: seq<Path>)
  {
    forall i, j :: 0 <= i <= j < |s| ==> Before(Key(s[i]), Key(s[j]))
  }

  function Insert(p: Path, s: seq<Path>): (r: seq<Path>)
    ensures multiset(r) == multiset{p} + multiset(s)
  {
    if s == [] || Before(Key(p), Key(s[0])) then [p] + s
    else
      assert s == [s[0]] + s[1..];
      [s[0]] + Insert(p, s[1..])
  }

  /** The roots in the order the library sort leaves them in; equal keys are equal paths, so there is only one. */
  function Sorted(s: seq<Path>): (r: seq<Path>)
    ensures multiset(r) == multiset(s)
  {
    if s == [] then []
    else
      assert s == [s[0]] + s[1..];
      Insert(s[0], Sorted(s[1..]))
  }

  lemma {:induction false} InsertOrders(p: Path, s: seq<Path>)
    requires Ordered(s)
    ensures Ordered(Insert(p, s))
  {
    hide Key, Before;
    var r := Insert(p, s);
    if s == [] || Before(Key(p), Key(s[0])) {
      forall i, j | 0 <= i <= j < |r| ensures Before(Key(r[i]), Key(r[j])) {
        if j == 0 { BeforeOrAfter(Key(p), Key(p)); }
        if i == 0 < j { BeforeChains(Key(p), Key(s[0]), Key(s[j - 1])); }
      }
    } else {
      var t := s[1..];
      assert forall k :: 0 <= k < |t| ==> t[k] == s[k + 1];
      InsertOrders(p, t);
      var q := Insert(p, t);
      BeforeOrAfter(Key(p), Key(s[0]));
      forall j | 0 <= j < |r| ensures Before(Key(s[0]), Key(r[j])) {
        if j > 0 {
          assert r[j] == q[j - 1] && q[j - 1] in multiset(q);
          assert q[j - 1] in multiset{p} + multiset(t);
        }
      }
      forall i, j | 0 <= i <= j < |r| ensures Before(Key(r[i]), Key(r[j])) {
        if i > 0 { assert r[i] == q[i - 1] && r[j] == q[j - 1]; }
      }
    }
  }

  lemma {:induction false} SortOrders(s: seq<Path>)
    ensures Ordered(Sorted(s))
  {
    if s != [] {
      SortOrders(s[1..]);
      InsertOrders(s[0], Sorted(s[1..]));
    }
  }

  lemma {:induction false} SameMembers(s: seq<Path>)
    ensures forall p :: p in Sorted(s) <==> p in s
  {
    forall p ensures p in Sorted(s) <==> p in s {
      assert p in multiset(Sorted(s)) <==> p in multiset(s);
    }
  }

  // ---------------------------------------------------------------- one pass

  /** What one pass over the roots keeps: each root outside the last one kept. */
  function Kept(s: seq<Path>): (r: seq<Path>)
  {
    if s == [] then []
    else
      var before := Kept(s[..|s| - 1]);
      var p := s[|s| - 1];
      if before == [] || !Within(p, before[|before| - 1]) then before + [p] else before
  }

  ghost predicate Apart(r: seq<Path>)
  {
    forall i, j :: 0 <= i < |r| && 0 <= j < |r| && i != j ==> !Within(r[i], r[j])
  }

  ghost predicate Covers(r: seq<Path>, p: Path, i: nat)
  {
    i < |r| && Within(p, r[i])
  }

  ghost predicate Covered(r: seq<Path>, p: Path)
  {
    exists i: nat :: Covers(r, p, i)
  }

  ghost predicate CoveredOnce(r: seq<Path>, p: Path)
  {
    exists i: nat :: Covers(r, p, i) && forall j: nat :: Covers(r, p, j) ==> j == i
  }

  /** The lists on which the order works: beside the root itself, no path that sorts before it. */
  predicate RootFirst(s: seq<Path>)
  {
    [] in s ==> forall k :: 0 <= k < |s| && s[k] != [] ==> SEPARATOR < s[k][0][0]
  }

  lemma {:induction false} OnlyMembersAreKept(s: seq<Path>)
    ensures s != [] ==> Kept(s) != []
    ensures forall i :: 0 <= i < |Kept(s)| ==> Kept(s)[i] in s
  {
    if s != [] {
      var t := s[..|s| - 1];
      OnlyMembersAreKept(t);
      assert s == t + [s[|s| - 1]];
    }
  }

  /** One pass loses nothing: every root lies in a kept one. */
  lemma {:induction false} KeptCovers(s: seq<Path>, k: nat)
    requires k < |s|
    ensures Covered(Kept(s), s[k])
  {
    var t := s[..|s| - 1];
    var r, before, p := Kept(s), Kept(t), s[|s| - 1];
    if k < |t| {
      KeptCovers(t, k);
      var i: nat :| Covers(before, t[k], i);
      assert r[..|before|] == before;
      assert Covers(r, s[k], i);
    } else {
      var i := |r| - 1;
      assert Covers(r, p, i);
    }
  }

  /** Without the root in the list, what is kept is apart and in order. */
  lemma {:induction false} KeptIsApart(s: seq<Path>)
    requires Ordered(s) && [] !in s
    ensures Apart(Kept(s)) && Ordered(Kept(s))
  {
    hide Key, Before;
    if s != [] {
      var t, p := s[..|s| - 1], s[|s| - 1];
      assert s == t + [p];
      assert forall k :: 0 <= k < |t| ==> t[k] == s[k];
      KeptIsApart(t);
      OnlyMembersAreKept(t);
      var before := Kept(t);
      if Kept(s) != before {
        forall i | 0 <= i < |before| ensures before[i] != [] && Before(Key(before[i]), Key(p)) {
          assert before[i] in t;
          var k :| 0 <= k < |t| && t[k] == before[i];
          assert s[k] == before[i];
        }
        OneMoreIsApart(before, p);
      }
    }
  }

  lemma OneMoreIsApart(before: seq<Path>, p: Path)
    requires Apart(before) && Ordered(before) && p != []
    requires forall i :: 0 <= i < |before| ==> before[i] != [] && Before(Key(before[i]), Key(p))
    requires before == [] || !Within(p, before[|before| - 1])
    ensures Apart(before + [p]) && Ordered(before + [p])
  {
    hide Key, Before, Within;
    forall i | 0 <= i < |before| ensures !Within(p, before[i]) && !Within(before[i], p) {
      NewIsApart(before[i], before[|before| - 1], p);
    }
    BeforeOrAfter(Key(p), Key(p));
  }

  /** A path outside the last kept root is outside every kept root: between two relatives there are only relatives. */
  lemma NewIsApart(k: Path, last: Path, p: Path)
    requires k != [] && last != [] && p != []
    requires Before(Key(k), Key(last)) && Before(Key(last), Key(p)) && !Within(p, last)
    requires Within(last, k) ==> k == last
    ensures !Within(p, k) && !Within(k, p)
  {
    hide Before, Text;
    TextPrefixIsAncestor(k, p);
    TextPrefixIsAncestor(k, last);
    TextPrefixIsAncestor(p, k);
    if Within(p, k) {
      PrefixesAreContiguous(Key(k), Key(last), Key(p));
    }
    if Within(k, p) {
      PrefixIsBefore(Key(p), Key(k));
      BeforeChains(Key(p), Key(k), Key(last));
      BothWaysIsEqual(Key(last), Key(p));
      TextPrefixIsAncestor(last, p);
    }
  }

  lemma RootSortsFirst(p: Path)
    requires p != []
    ensures Before(Key([]), Key(p)) <==> SEPARATOR < p[0][0]
    ensures Before(Key(p), Key([])) <==> p[0][0] < SEPARATOR
  {
    var t := Text(p);
    assert t[0] == SEPARATOR && t[1] == p[0][0] && p[0][0] in p[0];
    assert t[1..][0] == t[1];
  }

  /** When the root comes first it is all that is kept. */
  lemma {:induction false} RootAlone(s: seq<Path>)
    requires s != [] && s[0] == []
    ensures Kept(s) == [[]]
  {
    var t := s[..|s| - 1];
    if |s| == 1 {
      assert Kept(t) == [];
    } else {
      assert t[0] == s[0];
      RootAlone(t);
    }
  }

  lemma {:induction false} KeptGrows(s: seq<Path>, n: nat)
    requires n <= |s|
    ensures Kept(s[..n]) <= Kept(s)
  {
    if n == |s| {
      assert s[..n] == s;
    } else {
      KeptGrows(s[..|s| - 1], n);
      assert s[..|s| - 1][..n] == s[..n];
    }
  }

  /** A root that comes after another path is kept beside it. */
  lemma {:induction false} LateRootIsKept(s: seq<Path>, n: nat)
    requires n < |s| && s[n] == [] && [] !in s[..n] && n > 0
    ensures !Apart(Kept(s))
  {
    var t := s[..n];
    OnlyMembersAreKept(t);
    var before := Kept(t);
    assert before[|before| - 1] in t;
    assert s[..n + 1][..n] == t;
    assert Kept(s[..n + 1]) == before + [[]];
    KeptGrows(s, n + 1);
    assert Kept(s)[|before|] == [] && Kept(s)[0] == before[0];
    assert Within(Kept(s)[0], Kept(s)[|before|]);
  }

  lemma AncestorsAreRelated(p: Path, a: Path, b: Path)
    requires Within(p, a) && Within(p, b)
    ensures Within(a, b) || Within(b, a)
  {
    assert a == p[..|a|] && b == p[..|b|];
    assert |a| <= |b| ==> a == b[..|a|];
  }

  /** Two kept roots that hold the same path hold one another. */
  lemma ApartCoversOnce(r: seq<Path>, p: Path)
    requires Apart(r) && Covered(r, p)
    ensures CoveredOnce(r, p)
  {
    var i: nat :| Covers(r, p, i);
    forall j: nat | Covers(r, p, j) ensures j == i {
      AncestorsAreRelated(p, r[i], r[j]);
    }
  }

  /**
   * What coalescing is for: no kept root lies inside another, and every root lies in exactly one
   * kept root, exactly when the file-system root is absent or sorts first.
   */
  lemma {:induction false} Coalesced(s: seq<Path>)
    ensures Apart(Kept(Sorted(s))) <==> RootFirst(s)
    ensures RootFirst(s) <==> forall p :: p in s ==> CoveredOnce(Kept(Sorted(s)), p)
    ensures forall p :: p in s ==> Covered(Kept(Sorted(s)), p)
    ensures forall i :: 0 <= i < |Kept(Sorted(s))| ==> Kept(Sorted(s))[i] in s
  {
    hide *;
    var t := Sorted(s);
    var r := Kept(t);
    SortOrders(s);
    SameMembers(s);
    OnlyMembersAreKept(t);
    forall p | p in s ensures Covered(r, p) {
      var k :| 0 <= k < |t| && t[k] == p;
      KeptCovers(t, k);
    }
    ApartOrNot(t, s);
    if Apart(r) {
      forall p | p in s ensures CoveredOnce(r, p) {
        ApartCoversOnce(r, p);
      }
    } else {
      var p := CoveredTwice(r);
      assert p in s;
    }
  }

  lemma CoveredTwice(r: seq<Path>) returns (p: Path)
    requires !Apart(r)
    ensures p in r && !CoveredOnce(r, p)
  {
    var i: nat, j: nat :| i < |r| && j < |r| && i != j && Within(r[i], r[j]);
    p := r[i];
    assert Covers(r, p, i) && Covers(r, p, j);
  }

  lemma {:induction false} ApartOrNot(t: seq<Path>, s: seq<Path>)
    requires Ordered(t) && forall p :: p in t <==> p in s
    ensures Apart(Kept(t)) <==> RootFirst(s)
  {
    hide Kept, Key, Apart, Before;
    if [] !in s {
      KeptIsApart(t);
    } else {
      var n := FirstRoot(t);
      if n == 0 {
        RootAlone(t);
        assert Apart([[]]) by { OneIsApart([]); }
        NothingBeforeRoot(t, s);
      } else {
        LateRootIsKept(t, n);
        assert t[0] in t[..n] && t[0] in t;
        RootSortsFirst(t[0]);
        assert Before(Key(t[0]), Key(t[n]));
        var k :| 0 <= k < |s| && s[k] == t[0];
      }
    }
  }

  lemma OneIsApart(p: Path)
    ensures Apart([p])
  {
  }

  lemma NothingBeforeRoot(t: seq<Path>, s: seq<Path>)
    requires Ordered(t) && t != [] && t[0] == [] && forall p :: p in t <==> p in s
    ensures RootFirst(s)
  {
    forall k | 0 <= k < |s| && s[k] != [] ensures SEPARATOR < s[k][0][0] {
      assert s[k] in t;
      var j :| 0 <= j < |t| && t[j] == s[k];
      RootSortsFirst(s[k]);
    }
  }

  lemma {:induction false} FirstRoot(t: seq<Path>) returns (n: nat)
    requires [] in t
    ensures n < |t| && t[n] == [] && [] !in t[..n]
  {
    n := 0;
    while t[n] != []
      invariant n < |t| && [] !in t[..n] && [] in t[n..]
      decreases |t| - n
    {
      assert t[..n + 1] == t[..n] + [t[n]];
      assert t[n..] == [t[n]] + t[n + 1..];
      n := n + 1;
    }
  }

  // ---------------------------------------------------------------- the program

  /** One more root either joins what is kept so far or leaves it alone. */
  lemma KeptStep(s: seq<Path>, i: nat, kept: seq<Path>)
    requires i < |s| && kept == Kept(s[..i])
    ensures Kept(s[..i + 1]) == (if kept == [] || !Within(s[i], kept[|kept| - 1]) then kept + [s[i]] else kept)
  {
    assert s[..i + 1][..i] == s[..i];
  }

  /** The library sort. */
  method SortRoots(roots: array<Path>)
    modifies roots
    ensures roots[..] == Sorted(old(roots[..]))
  {
    hide Sorted;
    var ordered := Sorted(roots[..]);
    assert |ordered| == |multiset(ordered)| == |multiset(roots[..])| == roots.Length;
    forall k | 0 <= k < roots.Length { roots[k] := ordered[k]; }
  }

  /** The pass over ordered roots, filtering them in place: the kept ones are the first `n` entries. */
  method FilterRoots(roots: array<Path>) returns (n: nat)
    modifies roots
    ensures n <= roots.Length && roots[..n] == Kept(old(roots[..]))
  {
    hide Kept, Within;
    ghost var ordered := roots[..];
    n := 0;
    NoneKept(ordered[..0]);
    for i := 0 to roots.Length
      invariant n <= i && roots[i..] == ordered[i..]
      invariant roots[..n] == Kept(ordered[..i])
    {
      KeptStep(ordered, i, roots[..n]);
      assert roots[i] == roots[i..][0] == ordered[i];
      ghost var rest := roots[i + 1..];
      assert rest == roots[i..][1..] == ordered[i + 1..];
      if n == 0 || !Within(roots[i], roots[n - 1]) {
        ghost var kept := roots[..n];
        roots[n] := roots[i];
        n := n + 1;
        assert roots[..n] == kept + [ordered[i]];
        assert roots[i + 1..] == rest;
      }
    }
    assert ordered[..roots.Length] == ordered;
  }

  /** Sorts the roots and filters them; the slice it returns is the first `n` entries. */
  method CoalesceRoots(roots: array<Path>) returns (n: nat)
    modifies roots
    ensures n <= roots.Length && roots[..n] == Kept(Sorted(old(roots[..])))
  {
    SortRoots(roots);
    n := FilterRoots(roots);
  }

  lemma {:induction false} NoneKept(s: seq<Path>)
    requires s == []
    ensures Kept(s) == []
  {
  }

  /** Whether some ancestor of the path, or the path itself, is in the set: walks the parents. */
  method Contains<C(==)>(paths: set<seq<C>>, path: seq<C>) returns (found: bool)
    ensures found <==> exists root :: root in paths && root <= path
  {
    if paths == {} { return false; }
    var p := path;
    while true
      invariant p <= path
      invariant forall root :: root in paths && root <= path ==> root <= p
      decreases |p|
    {
      if p in paths { return true; }
      var parent := if p == [] then p else p[..|p| - 1];
      if parent == p { return false; }
      forall root | root in paths && root <= path ensures root <= parent {
        assert root <= p && root != p;
      }
      p := parent;
    }
  }

  lemma CoversThrough(s: seq<Path>, r: seq<Path>, path: Path)
    requires Covered(s, path) && forall p :: p in s ==> Covered(r, p)
    ensures Covered(r, path)
  {
    var k: nat :| Covers(s, path, k);
    assert s[k] in s;
    var i: nat :| Covers(r, s[k], i);
    assert Covers(r, path, i);
  }

  /** Testing a path against the kept roots answers as testing it against all of them. */
  lemma {:induction false} CoalescingKeepsMembership(s: seq<Path>, path: Path)
    ensures Covered(s, path) <==> Covered(Kept(Sorted(s)), path)
  {
    hide *;
    Coalesced(s);
    var r := Kept(Sorted(s));
    if Covered(s, path) { CoversThrough(s, r, path); }
    if Covered(r, path) {
      forall p | p in r ensures Covered(s, p) { MembersCoverThemselves(s, p); }
      CoversThrough(r, s, path);
    }
  }

  lemma MembersCoverThemselves(s: seq<Path>, p: Path)
    requires p in s
    ensures Covered(s, p)
  {
    var k: nat :| k < |s| && s[k] == p;
    assert Covers(s, p, k);
  }

  const DASHED: Component := [45, 120]

  /** The root listed beside /-x, which sorts before it: both are kept, one inside the other. */
  lemma RootKeptBesideDash()
    ensures Kept(Sorted([[], [DASHED]])) == [[DASHED], []]
    ensures !RootFirst([[], [DASHED]]) && !Apart(Kept(Sorted([[], [DASHED]])))
  {
    hide Sorted, Kept;
    var root: Path, dashed: Path := [], [DASHED];
    DashSortsFirst();
    BothAreKept();
    var r := Kept(Sorted([root, dashed]));
    assert Within(r[0], r[1]);
  }

  lemma DashSortsFirst()
    ensures Sorted([[], [DASHED]]) == [[DASHED], []]
    ensures !RootFirst([[], [DASHED]])
  {
    hide Key, Before, Text;
    var root: Path, dashed: Path := [], [DASHED];
    RootSortsFirst(dashed);
    var none: seq<Path> := [];
    assert [dashed][1..] == none && [root, dashed][1..] == [dashed];
    assert Sorted([dashed]) == [dashed];
    assert Insert(root, none) == [root];
    assert Insert(root, [dashed]) == [dashed] + Insert(root, none);
    assert Sorted([root, dashed]) == [dashed, root];
  }

  lemma BothAreKept()
    ensures Kept([[DASHED], []]) == [[DASHED], []]
  {
    hide Key, Before, Text;
    var root: Path, dashed: Path := [], [DASHED];
    var none: seq<Path> := [];
    assert [dashed, root][..1] == [dashed] && [dashed][..0] == none;
    assert Kept([dashed]) == [dashed];
  }
}
