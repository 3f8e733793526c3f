/** Appending a compacted copy of one tree under a directory of another. */
module Grafting {
  import opened Words
  import opened Sums
  import opened Forest
  import opened Slots
  import opened Ancestors
  import opened Edits

  // -- Compaction: live nodes keep their order ---------------------------------------

  /** How many live nodes precede i. */
  function Rank(u: Arena, i: nat): (r: nat)
    requires i <= |u|
    ensures r <= i
  {
    if i == 0 then 0 else Rank(u, i - 1) + (if u[i - 1].used then 1 else 0)
  }

  /** The live nodes among the first n, in order. */
  function LiveIds(u: Arena, n: nat): (r: seq<nat>)
    requires n <= |u|
    ensures |r| == Rank(u, n)
    ensures forall k :: 0 <= k < |r| ==> r[k] < n && u[r[k]].used
  {
    if n == 0 then [] else if u[n - 1].used then LiveIds(u, n - 1) + [n - 1] else LiveIds(u, n - 1)
  }

  lemma {:induction false} RankMonotone(u: Arena, i: nat, j: nat)
    requires i < j <= |u| && u[i].used
    ensures Rank(u, i) < Rank(u, j)
    decreases j
  {
    if i < j - 1 { RankMonotone(u, i, j - 1); }
  }

  /** Ranks name live nodes one to one. */
  lemma {:induction false} LiveIdOfRank(u: Arena, n: nat, i: nat)
    requires i < n <= |u| && u[i].used
    ensures Rank(u, i) < Rank(u, n) && LiveIds(u, n)[Rank(u, i)] == i
  {
    RankMonotone(u, i, n);
    if i < n - 1 {
      LiveIdOfRank(u, n - 1, i);
    }
  }

  lemma {:induction false} RankOfLiveId(u: Arena, n: nat, k: nat)
    requires n <= |u| && k < Rank(u, n)
    ensures Rank(u, LiveIds(u, n)[k]) == k
  {
    if u[n - 1].used {
      if k < Rank(u, n - 1) { RankOfLiveId(u, n - 1, k); }
    } else {
      RankOfLiveId(u, n - 1, k);
    }
  }

  /** Dropping dead nodes, which weigh nothing, does not change a sum. */
  lemma {:induction false} CompactSum(u: Arena, n: nat, f: nat -> nat, g: nat -> nat)
    requires n <= |u|
    requires forall i: nat {:trigger f(i)} :: i < n ==> f(i) == if u[i].used then g(Rank(u, i)) else 0
    ensures Sum(n, f) == Sum(Rank(u, n), g)
  {
    if n > 0 { CompactSum(u, n - 1, f, g); }
  }

  // -- The graft ------------------------------------------------------------------------

  /** Where node i of u lands when its copy starts at slot `start` below p. */
  function Moved(u: Arena, start: nat, p: U32, rootName: Name, i: nat): (e: Slot)
    requires i < |u| && start + |u| <= MAX_U32
  {
    if i == 0 then u[0].(parent := p, name := rootName)
    else if Valid(u, u[i].parent) then u[i].(parent := start + Rank(u, u[i].parent))
    else u[i].(parent := p, used := false)
  }

  function Copies(u: Arena, start: nat, p: U32, rootName: Name): (r: Arena)
    requires start + |u| <= MAX_U32
    ensures |r| == Rank(u, |u|)
  {
    seq(Rank(u, |u|), (k: nat) requires k < Rank(u, |u|) => Moved(u, start, p, rootName, LiveIds(u, |u|)[k]))
  }

  /** The slots of t with those of u appended below p, before any ancestor is credited. */
  function Joined(s: Arena, u: Arena, p: U32, rootName: Name): (t: Arena)
    requires |s| + |u| <= MAX_U32
  {
    s + Copies(u, |s|, p, rootName)
  }

  ghost predicate Graftable(s: Arena, u: Arena, p: U32)
  {
    WellFormed(s) && WellFormed(u) && IsDir(s, p) && |s| + |u| <= MAX_U32
  }

  function Image(s: Arena, u: Arena, i: nat): nat
    requires i <= |u|
  {
    |s| + Rank(u, i)
  }

  lemma CopyAt(s: Arena, u: Arena, p: U32, rootName: Name, i: nat)
    requires Graftable(s, u, p) && Valid(u, i)
    ensures |s| <= Image(s, u, i) < |Joined(s, u, p, rootName)|
    ensures Joined(s, u, p, rootName)[Image(s, u, i)] == Moved(u, |s|, p, rootName, i)
  {
    LiveIdOfRank(u, |u|, i);
  }

  lemma JoinedEdges(s: Arena, u: Arena, p: U32, rootName: Name)
    requires Graftable(s, u, p)
    ensures Extends(Edges(s), Edges(Joined(s, u, p, rootName)))
  {
    var t := Joined(s, u, p, rootName);
    forall i | 0 <= i < |s| ensures HeapEdge(t, i) == HeapEdge(s, i) {
      assert t[i] == s[i];
    }
  }

  lemma JoinedEdge(s: Arena, u: Arena, p: U32, rootName: Name, i: nat)
    requires Graftable(s, u, p) && Valid(u, i)
    ensures Image(s, u, i) < |Joined(s, u, p, rootName)|
    ensures Edges(Joined(s, u, p, rootName))[Image(s, u, i)] ==
            Some(if i == 0 then p else Image(s, u, u[i].parent))
  {
    var t := Joined(s, u, p, rootName);
    CopyAt(s, u, p, rootName, i);
    if i == 0 {
      assert t[p] == s[p];
    } else {
      var j := u[i].parent;
      CopyAt(s, u, p, rootName, j);
      if j < i { RankMonotone(u, j, i); } else { RankMonotone(u, i, j); }
    }
  }

  /** From a copied node one reaches the copies of what the original reached, and everything at or above p. */
  lemma {:induction false} JoinedReaches(s: Arena, u: Arena, p: U32, rootName: Name, i: nat, m: nat, d: nat)
    requires Graftable(s, u, p) && Valid(u, i) && Up(Edges(u), i, m) == Some(0)
    requires d < |s|
    ensures Reaches(Edges(Joined(s, u, p, rootName)), Image(s, u, i), d) <==> AtOrBelow(Edges(s), p, d)
    decreases m
  {
    var e := Edges(Joined(s, u, p, rootName));
    JoinedEdges(s, u, p, rootName);
    JoinedEdge(s, u, p, rootName, i);
    ReachesFirstStep(e, Image(s, u, i), d);
    if i == 0 {
      ReachesExtends(Edges(s), e, p, d);
    } else {
      var j := u[i].parent;
      UpStep(u, i, m);
      JoinedReaches(s, u, p, rootName, j, m - 1, d);
    }
  }

  lemma {:induction false} UpStep(u: Arena, i: nat, m: nat)
    requires WellFormed(u) && Valid(u, i) && i != 0 && Up(Edges(u), i, m) == Some(0)
    ensures m > 0 && Up(Edges(u), u[i].parent, m - 1) == Some(0)
  {
    var e := Edges(u);
    assert Up(e, i, 0) == Some(i);
    assert e[i] == Some(u[i].parent as nat);
    assert Up(e, i, 1) == Some(u[i].parent as nat);
    UpCompose(e, i, u[i].parent, 1, m - 1);
  }

  lemma RootDistance(u: Arena, i: nat) returns (m: nat)
    requires WellFormed(u) && Valid(u, i)
    ensures Up(Edges(u), i, m) == Some(0)
  {
    LiveBelowRoot(u, i);
    if i == 0 {
      m := 0;
    } else {
      m :| m >= 1 && Up(Edges(u), i, m) == Some(0);
    }
  }

  lemma {:induction false} JoinedReachesCopy(s: Arena, u: Arena, p: U32, rootName: Name, i: nat, m: nat, k: nat)
    requires Graftable(s, u, p) && Valid(u, i) && Up(Edges(u), i, m) == Some(0)
    requires Valid(u, k)
    ensures Reaches(Edges(Joined(s, u, p, rootName)), Image(s, u, i), Image(s, u, k)) <==> Reaches(Edges(u), i, k)
    decreases m
  {
    var e := Edges(Joined(s, u, p, rootName));
    JoinedEdges(s, u, p, rootName);
    JoinedEdge(s, u, p, rootName, i);
    ReachesFirstStep(e, Image(s, u, i), Image(s, u, k));
    ReachesFirstStep(Edges(u), i, k);
    if i == 0 {
      ReachesExtends(Edges(s), e, p, Image(s, u, k));
    } else {
      var j := u[i].parent;
      UpStep(u, i, m);
      JoinedReachesCopy(s, u, p, rootName, j, m - 1, k);
      if j < k { RankMonotone(u, j, k); } else if k < j { RankMonotone(u, k, j); }
    }
  }

  // -- Totals ------------------------------------------------------------------------------

  /** w weighs the old slots of t as ws does and the copies as wu weighs their originals. */
  ghost predicate JoinsWeights(s: Arena, u: Arena, ws: nat -> nat, wu: nat -> nat, w: nat -> nat)
  {
    && (forall i: nat {:trigger ws(i)} :: i < |s| ==> w(i) == ws(i))
    && (forall i: nat {:trigger wu(i)} :: i < |u| && u[i].used ==> w(Image(s, u, i)) == wu(i))
    && (forall i: nat {:trigger wu(i)} :: i < |u| && !u[i].used ==> wu(i) == 0)
    && wu(0) == 0
  }

  /** What u adds to an old directory: all of it or nothing. */
  ghost function AddedWeight(s: Arena, u: Arena, p: nat, d: nat, wu: nat -> nat): nat -> nat
  {
    (i: nat) => if AtOrBelow(Edges(s), p, d) && Reaches(Edges(u), i, 0) then wu(i) else 0
  }

  lemma OldTerm(s: Arena, u: Arena, p: U32, rootName: Name, d: nat, ws: nat -> nat, wu: nat -> nat, w: nat -> nat, i: nat)
    requires Graftable(s, u, p) && JoinsWeights(s, u, ws, wu, w) && i < |s|
    ensures BelowWeight(Edges(Joined(s, u, p, rootName)), w, d)(i) == BelowWeight(Edges(s), ws, d)(i)
  {
    JoinedEdges(s, u, p, rootName);
    ReachesExtends(Edges(s), Edges(Joined(s, u, p, rootName)), i, d);
  }

  lemma AddedTerm(s: Arena, u: Arena, p: U32, rootName: Name, d: nat, ws: nat -> nat, wu: nat -> nat, w: nat -> nat, i: nat)
    requires Graftable(s, u, p) && d < |s| && JoinsWeights(s, u, ws, wu, w) && i < |u|
    ensures AddedWeight(s, u, p, d, wu)(i) ==
            if u[i].used then BelowWeight(Edges(Joined(s, u, p, rootName)), w, d)(Image(s, u, i)) else 0
  {
    if u[i].used {
      var h := RootDistance(u, i);
      JoinedReaches(s, u, p, rootName, i, h, d);
      LiveBelowRoot(u, i);
      ReachesFirstStep(Edges(u), 0, 0);
    }
  }

  lemma CopiedTerm(s: Arena, u: Arena, p: U32, rootName: Name, k: nat, ws: nat -> nat, wu: nat -> nat, w: nat -> nat, i: nat)
    requires Graftable(s, u, p) && Valid(u, k) && JoinsWeights(s, u, ws, wu, w) && i < |u|
    ensures BelowWeight(Edges(u), wu, k)(i) ==
            if u[i].used then BelowWeight(Edges(Joined(s, u, p, rootName)), w, Image(s, u, k))(Image(s, u, i)) else 0
  {
    if u[i].used {
      var h := RootDistance(u, i);
      JoinedReachesCopy(s, u, p, rootName, i, h, k);
    }
  }

  /** A sum over old slots followed by copies splits into the sums over the two trees. */
  lemma {:induction false} JoinedSum(n: nat, u: Arena, f: nat -> nat, f0: nat -> nat, g: nat -> nat)
    requires forall i: nat {:trigger f(i)} :: i < n ==> f(i) == f0(i)
    requires forall i: nat {:trigger g(i)} :: i < |u| ==> g(i) == if u[i].used then f(n + Rank(u, i)) else 0
    ensures Sum(n + Rank(u, |u|), f) == Sum(n, f0) + Sum(|u|, g)
  {
    SumSplit(n, Rank(u, |u|), f);
    SumEqual(n, f, f0);
    CompactSum(u, |u|, g, Shift(f, n));
  }

  lemma {:induction false} AddedTotal(s: Arena, u: Arena, p: nat, d: nat, wu: nat -> nat)
    ensures Sum(|u|, AddedWeight(s, u, p, d, wu)) == if AtOrBelow(Edges(s), p, d) then Total(Edges(u), wu, 0) else 0
  {
    if AtOrBelow(Edges(s), p, d) {
      SumEqual(|u|, AddedWeight(s, u, p, d, wu), BelowWeight(Edges(u), wu, 0));
    } else {
      SumZero(|u|, AddedWeight(s, u, p, d, wu));
    }
  }

  lemma {:induction false} JoinedLength(s: Arena, u: Arena, p: U32, rootName: Name)
    requires Graftable(s, u, p)
    ensures |Edges(Joined(s, u, p, rootName))| == |s| + Rank(u, |u|)
  {
  }

  lemma JoinedTotalOld(s: Arena, u: Arena, p: U32, rootName: Name, d: nat, ws: nat -> nat, wu: nat -> nat, w: nat -> nat)
    requires Graftable(s, u, p) && d < |s| && JoinsWeights(s, u, ws, wu, w)
    ensures Total(Edges(Joined(s, u, p, rootName)), w, d) ==
            Total(Edges(s), ws, d) + (if AtOrBelow(Edges(s), p, d) then Total(Edges(u), wu, 0) else 0)
  {
    hide Joined, JoinsWeights, AtOrBelow, BelowWeight, AddedWeight, Rank, WellFormed, Edges;
    JoinedLength(s, u, p, rootName);
    var f := BelowWeight(Edges(Joined(s, u, p, rootName)), w, d);
    var f0, g := BelowWeight(Edges(s), ws, d), AddedWeight(s, u, p, d, wu);
    forall i: nat {:trigger f(i)} | i < |s| ensures f(i) == f0(i) { OldTerm(s, u, p, rootName, d, ws, wu, w, i); }
    forall i: nat {:trigger g(i)} | i < |u| ensures g(i) == if u[i].used then f(|s| + Rank(u, i)) else 0 {
      AddedTerm(s, u, p, rootName, d, ws, wu, w, i);
    }
    JoinedSum(|s|, u, f, f0, g);
    AddedTotal(s, u, p, d, wu);
  }

  lemma NoOldTerm(s: Arena, u: Arena, p: U32, rootName: Name, x: nat, w: nat -> nat, i: nat)
    requires Graftable(s, u, p) && i < |s| && |s| <= x
    ensures BelowWeight(Edges(Joined(s, u, p, rootName)), w, x)(i) == 0
  {
    JoinedEdges(s, u, p, rootName);
    ReachesExtends(Edges(s), Edges(Joined(s, u, p, rootName)), i, x);
  }

  ghost function Nothing(): nat -> nat
  {
    (i: nat) => 0
  }

  lemma JoinedTotalNew(s: Arena, u: Arena, p: U32, rootName: Name, k: nat, ws: nat -> nat, wu: nat -> nat, w: nat -> nat)
    requires Graftable(s, u, p) && Valid(u, k) && JoinsWeights(s, u, ws, wu, w)
    ensures Total(Edges(Joined(s, u, p, rootName)), w, Image(s, u, k)) == Total(Edges(u), wu, k)
  {
    var f := BelowWeight(Edges(Joined(s, u, p, rootName)), w, Image(s, u, k));
    var f0, g := Nothing(), BelowWeight(Edges(u), wu, k);
    forall i: nat {:trigger f(i)} | i < |s| ensures f(i) == f0(i) { NoOldTerm(s, u, p, rootName, Image(s, u, k), w, i); }
    forall i: nat {:trigger g(i)} | i < |u| ensures g(i) == if u[i].used then f(|s| + Rank(u, i)) else 0 {
      CopiedTerm(s, u, p, rootName, k, ws, wu, w, i);
    }
    JoinedSum(|s|, u, f, f0, g);
    SumZero(|s|, f0);
  }

  lemma JoinedWeights(s: Arena, u: Arena, p: U32, rootName: Name)
    requires Graftable(s, u, p)
    ensures JoinsWeights(s, u, SizeWeight(s), SizeWeight(u), SizeWeight(Joined(s, u, p, rootName)))
    ensures JoinsWeights(s, u, CountWeight(s), CountWeight(u), CountWeight(Joined(s, u, p, rootName)))
  {
    var t := Joined(s, u, p, rootName);
    forall i: nat | i < |u| && u[i].used
      ensures SizeWeight(t)(Image(s, u, i)) == SizeWeight(u)(i) && CountWeight(t)(Image(s, u, i)) == CountWeight(u)(i)
    {
      CopyAt(s, u, p, rootName, i);
    }
  }

  /** Every appended slot is the copy of some live node. */
  lemma CopyOf(s: Arena, u: Arena, p: U32, rootName: Name, x: nat) returns (i: nat)
    requires Graftable(s, u, p) && |s| <= x < |Joined(s, u, p, rootName)|
    ensures Valid(u, i) && Image(s, u, i) == x
  {
    i := LiveIds(u, |u|)[x - |s|];
    RankOfLiveId(u, |u|, x - |s|);
  }

  lemma {:induction false} ChainStep(e: Graph, x: nat, y: nat, k: nat)
    requires x < |e| && e[x] == Some(y)
    ensures Up(e, x, k + 1) == Up(e, y, k)
  {
    assert Up(e, x, 0) == Some(x);
    assert Up(e, x, 1) == Some(y);
    UpCompose(e, x, y, 1, k);
  }

  lemma {:induction false} ChainEnds(e: Graph, x: nat, a: nat, b: nat)
    requires x < |e| && a <= b && Up(e, x, a).None?
    ensures Up(e, x, b).None?
  {
    if Up(e, x, b).Some? { UpPrefix(e, x, a, b); }
  }

  lemma ParentEdge(s: Arena, u: Arena, p: U32, i: nat)
    requires Graftable(s, u, p) && Valid(u, i)
    ensures i != 0 ==> Valid(u, u[i].parent) && Edges(u)[i] == Some(u[i].parent as nat)
    ensures p < |s|
  {
  }

  /** The depth of a copy is its depth in u on top of the depth of p. */
  lemma {:induction false} JoinedUp(s: Arena, u: Arena, p: U32, rootName: Name, i: nat, h: nat, b: nat)
    requires Graftable(s, u, p) && Valid(u, i)
    requires Up(Edges(u), i, h).None? && Up(Edges(s), p, b).None?
    ensures Image(s, u, i) < |Joined(s, u, p, rootName)|
    ensures Up(Edges(Joined(s, u, p, rootName)), Image(s, u, i), h + b).None?
    decreases h
  {
    hide Joined, Rank, WellFormed;
    var e := Edges(Joined(s, u, p, rootName));
    JoinedEdge(s, u, p, rootName, i);
    assert Up(Edges(u), i, 0) == Some(i);
    ParentEdge(s, u, p, i);
    if i == 0 {
      JoinedEdges(s, u, p, rootName);
      UpExtends(Edges(s), e, p, b);
      ChainStep(e, Image(s, u, i), p, b);
      ChainEnds(e, Image(s, u, i), b + 1, h + b);
    } else {
      var j := u[i].parent;
      assert Edges(u)[i] == Some(j as nat);
      ChainStep(Edges(u), i, j, h - 1);
      JoinedUp(s, u, p, rootName, j, h - 1, b);
      ChainStep(e, Image(s, u, i), Image(s, u, j), h - 1 + b);
    }
  }

  lemma {:induction false} JoinedWellFormed(s: Arena, u: Arena, p: U32, rootName: Name, h: nat)
    requires Graftable(s, u, p) && Shallow(s) && h <= WALK_LIMIT
    requires forall i :: Valid(u, i) ==> Up(Edges(u), i, h).None?
    requires Up(Edges(s), p, WALK_LIMIT - h).None?
    ensures WellFormed(Joined(s, u, p, rootName)) && Shallow(Joined(s, u, p, rootName))
  {
    var t := Joined(s, u, p, rootName);
    JoinedEdges(s, u, p, rootName);
    forall x: nat | x < |t|
      ensures !OnCycle(Edges(t), x)
      ensures 0 < x && t[x].used ==> IsDir(t, t[x].parent) && t[x].parent != x
      ensures Valid(t, x) ==> Up(Edges(t), x, WALK_LIMIT).None?
    {
      JoinedNode(s, u, p, rootName, h, x);
    }
  }

  lemma {:induction false} JoinedNode(s: Arena, u: Arena, p: U32, rootName: Name, h: nat, x: nat)
    requires Graftable(s, u, p) && Shallow(s) && h <= WALK_LIMIT && x < |Joined(s, u, p, rootName)|
    requires forall i :: Valid(u, i) ==> Up(Edges(u), i, h).None?
    requires Up(Edges(s), p, WALK_LIMIT - h).None?
    ensures !OnCycle(Edges(Joined(s, u, p, rootName)), x)
    ensures var t := Joined(s, u, p, rootName); 0 < x && t[x].used ==> IsDir(t, t[x].parent) && t[x].parent != x
    ensures Valid(Joined(s, u, p, rootName), x) ==> Up(Edges(Joined(s, u, p, rootName)), x, WALK_LIMIT).None?
  {
    var t := Joined(s, u, p, rootName);
    JoinedEdges(s, u, p, rootName);
    if x < |s| {
      ReachesExtends(Edges(s), Edges(t), x, x);
      UpExtends(Edges(s), Edges(t), x, WALK_LIMIT);
      assert t[x] == s[x] && !OnCycle(Edges(s), x);
    } else {
      var i := CopyOf(s, u, p, rootName, x);
      JoinedEdge(s, u, p, rootName, i);
      var m := RootDistance(u, i);
      JoinedReachesCopy(s, u, p, rootName, i, m, i);
      assert !OnCycle(Edges(u), i);
      JoinedUp(s, u, p, rootName, i, h, WALK_LIMIT - h);
      assert HeapEdge(t, x).Some?;
    }
  }

  // -- The edit -------------------------------------------------------------------------------

  /** Appending u below p: the copies, then u's reported totals on every ancestor of p. */
  function Grafted(s: Arena, u: Arena, p: U32, rootName: Name): (t: Arena)
    requires |s| + |u| <= MAX_U32 && |u| > 0
  {
    var t := Joined(s, u, p, rootName);
    Touch(t, Chain(t, p), AddTotals(u[0].size, u[0].files))
  }

  lemma {:induction false} GraftKeepsExact(s: Arena, u: Arena, p: U32, rootName: Name, h: nat)
    requires Exact(s) && Exact(u) && IsDir(s, p) && |s| + |u| <= MAX_U32
    requires BytesBelow(s, 0) + BytesBelow(u, 0) <= MAX_U64
    requires h <= WALK_LIMIT && (forall i :: Valid(u, i) ==> Up(Edges(u), i, h).None?)
    requires Up(Edges(s), p, WALK_LIMIT - h).None?
    ensures Exact(Grafted(s, u, p, rootName))
    ensures BytesBelow(Grafted(s, u, p, rootName), 0) == BytesBelow(s, 0) + BytesBelow(u, 0)
  {
    var t := Joined(s, u, p, rootName);
    JoinedWellFormed(s, u, p, rootName, h);
    JoinedWeights(s, u, p, rootName);
    JoinedEdges(s, u, p, rootName);
    forall d | IsDir(t, d)
      ensures var x := if AtOrBelow(Edges(t), p, d) then AddTotals(u[0].size, u[0].files)(t[d]) else t[d];
              x.size == BytesBelow(t, d) && x.files == FilesBelow(t, d)
    {
      if d < |s| {
        GraftedOldDir(s, u, p, rootName, d);
      } else {
        GraftedNewDir(s, u, p, rootName, d);
      }
    }
    assert t[p] == s[p];
    ExactAfterWalk(t, p, AddTotals(u[0].size, u[0].files));
    SameGraph(t, Grafted(s, u, p, rootName));
    LiveBelowRoot(s, p);
    JoinedTotalOld(s, u, p, rootName, 0, SizeWeight(s), SizeWeight(u), SizeWeight(t));
  }

  lemma GraftedOldDir(s: Arena, u: Arena, p: U32, rootName: Name, d: nat)
    requires Exact(s) && Exact(u) && IsDir(s, d) && Graftable(s, u, p)
    requires BytesBelow(s, 0) + BytesBelow(u, 0) <= MAX_U64
    ensures var t := Joined(s, u, p, rootName);
            var x := if AtOrBelow(Edges(t), p, d) then AddTotals(u[0].size, u[0].files)(t[d]) else t[d];
            x.size == BytesBelow(t, d) && x.files == FilesBelow(t, d)
  {
    var t := Joined(s, u, p, rootName);
    JoinedEdges(s, u, p, rootName);
    JoinedWeights(s, u, p, rootName);
    ReachesExtends(Edges(s), Edges(t), p, d);
    JoinedTotalOld(s, u, p, rootName, d, SizeWeight(s), SizeWeight(u), SizeWeight(t));
    JoinedTotalOld(s, u, p, rootName, d, CountWeight(s), CountWeight(u), CountWeight(t));
    LiveBelowRoot(s, d);
    TotalMonotone(s, SizeWeight(s), d, 0);
    FilesBounded(s, d);
    FilesBounded(u, 0);
  }

  lemma GraftedNewDir(s: Arena, u: Arena, p: U32, rootName: Name, d: nat)
    requires Exact(s) && Exact(u) && Graftable(s, u, p)
    requires |s| <= d && IsDir(Joined(s, u, p, rootName), d)
    ensures var t := Joined(s, u, p, rootName);
            !AtOrBelow(Edges(t), p, d) && t[d].size == BytesBelow(t, d) && t[d].files == FilesBelow(t, d)
  {
    var t := Joined(s, u, p, rootName);
    JoinedEdges(s, u, p, rootName);
    JoinedWeights(s, u, p, rootName);
    ReachesExtends(Edges(s), Edges(t), p, d);
    var i := CopyOf(s, u, p, rootName, d);
    CopyAt(s, u, p, rootName, i);
    JoinedTotalNew(s, u, p, rootName, i, SizeWeight(s), SizeWeight(u), SizeWeight(t));
    JoinedTotalNew(s, u, p, rootName, i, CountWeight(s), CountWeight(u), CountWeight(t));
  }
}
