/** How one edit of the tree moves every directory's exact total. */
module Edits {
  import opened Words
  import opened Sums
  import opened Forest
  import opened Slots
  import opened Ancestors

  /** Everything the index promises about its slots between edits. */
  ghost predicate Exact(s: Arena)
  {
    WellFormed(s) && Shallow(s) && ExactTotals(s)
  }

  // -- Graphs that grow ----------------------------------------------------------

  ghost predicate Extends(e: Graph, e': Graph)
  {
    |e| <= |e'| && forall i :: 0 <= i < |e| ==> e'[i] == e[i]
  }

  lemma {:induction false} UpExtends(e: Graph, e': Graph, i: nat, k: nat)
    requires Extends(e, e') && i < |e|
    ensures Up(e', i, k) == Up(e, i, k)
  {
    if k > 0 { UpExtends(e, e', i, k - 1); }
  }

  lemma ReachesExtends(e: Graph, e': Graph, i: nat, d: nat)
    requires Extends(e, e') && i < |e|
    ensures Reaches(e', i, d) == Reaches(e, i, d)
  {
    forall k: nat ensures Up(e', i, k) == Up(e, i, k) { UpExtends(e, e', i, k); }
    if Reaches(e', i, d) {
      var k: nat :| k >= 1 && Up(e', i, k) == Some(d);
      assert Up(e, i, k) == Some(d);
    }
    if Reaches(e, i, d) {
      var k: nat :| k >= 1 && Up(e, i, k) == Some(d);
      assert Up(e', i, k) == Some(d);
    }
  }

  // -- Replacing a file's size -----------------------------------------------------

  function Resized(s: Arena, i: nat, size: U64, mtime: U64): (t: Arena)
    requires IsFile(s, i)
    ensures |t| == |s|
  {
    s[i := s[i].(size := size, mtime := mtime)]
  }

  lemma ResizedTotals(s: Arena, i: nat, size: U64, mtime: U64, d: nat)
    requires IsFile(s, i)
    ensures Edges(Resized(s, i, size, mtime)) == Edges(s)
    ensures FilesBelow(Resized(s, i, size, mtime), d) == FilesBelow(s, d)
    ensures BytesBelow(Resized(s, i, size, mtime), d) + (if Reaches(Edges(s), i, d) then s[i].size else 0)
         == BytesBelow(s, d) + (if Reaches(Edges(s), i, d) then size else 0)
  {
    var t := Resized(s, i, size, mtime);
    var e := Edges(s);
    assert Edges(t) == e;
    SumEqual(|s|, BelowWeight(e, CountWeight(s), d), BelowWeight(e, CountWeight(t), d));
    var f := BelowWeight(e, SizeWeight(s), d);
    var g := BelowWeight(e, SizeWeight(t), d);
    var hole := (j: nat) => if j == i then 0 else f(j);
    SumPoint(|s|, hole, f, i, f(i));
    SumPoint(|s|, hole, g, i, g(i));
  }

  // -- Adding a leaf -----------------------------------------------------------------

  lemma LeafTotals(s: Arena, leaf: Slot, d: nat)
    requires WellFormed(s) && leaf.used && !leaf.isDir && IsDir(s, leaf.parent)
    requires d < |s|
    ensures Extends(Edges(s), Edges(s + [leaf])) && Edges(s + [leaf])[|s|] == Some(leaf.parent)
    ensures BytesBelow(s + [leaf], d) == BytesBelow(s, d) + (if AtOrBelow(Edges(s), leaf.parent, d) then leaf.size else 0)
    ensures FilesBelow(s + [leaf], d) == FilesBelow(s, d) + (if AtOrBelow(Edges(s), leaf.parent, d) then 1 else 0)
  {
    var t := s + [leaf];
    var e, e', n := Edges(s), Edges(t), |s|;
    LeafExtends(s, leaf);
    forall i: nat | i < n ensures Reaches(e', i, d) == Reaches(e, i, d) { ReachesExtends(e, e', i, d); }
    ReachesFirstStep(e', n, d);
    SumEqual(n, BelowWeight(e', SizeWeight(t), d), BelowWeight(e, SizeWeight(s), d));
    SumEqual(n, BelowWeight(e', CountWeight(t), d), BelowWeight(e, CountWeight(s), d));
  }

  lemma LeafExtends(s: Arena, leaf: Slot)
    requires WellFormed(s) && leaf.used && !leaf.isDir && IsDir(s, leaf.parent)
    ensures Extends(Edges(s), Edges(s + [leaf])) && Edges(s + [leaf])[|s|] == Some(leaf.parent)
  {
    var t := s + [leaf];
    forall i | 0 <= i < |s| ensures HeapEdge(t, i) == HeapEdge(s, i) {
      assert t[i] == s[i];
    }
  }

  lemma LeafWellFormed(s: Arena, leaf: Slot)
    requires WellFormed(s) && leaf.used && !leaf.isDir && IsDir(s, leaf.parent)
    requires Shallow(s) && Up(Edges(s), leaf.parent, WALK_LIMIT - 1).None?
    ensures WellFormed(s + [leaf]) && Shallow(s + [leaf])
  {
    var t := s + [leaf];
    var e, e', n := Edges(s), Edges(t), |s|;
    LeafExtends(s, leaf);
    forall i: nat | i < n ensures Reaches(e', i, i) == Reaches(e, i, i) && Up(e', i, WALK_LIMIT) == Up(e, i, WALK_LIMIT) {
      ReachesExtends(e, e', i, i);
      UpExtends(e, e', i, WALK_LIMIT);
    }
    NothingBelowFile(t, SizeWeight(t), n);
    forall i | 0 <= i < |t| ensures !OnCycle(e', i) {
      if i < n { assert !OnCycle(e, i); }
    }
    assert Up(e', n, 0) == Some(n) && Up(e', n, 1) == Some(leaf.parent);
    UpCompose(e', n, leaf.parent, 1, WALK_LIMIT - 1);
    UpExtends(e, e', leaf.parent, WALK_LIMIT - 1);
  }

  // -- Burying a subtree ---------------------------------------------------------------

  /** The slots once idx and everything below it is a tombstone. */
  ghost function Buried(s: Arena, idx: nat): (t: Arena)
    ensures |t| == |s|
    ensures forall i :: 0 <= i < |s| ==> t[i] == if AtOrBelow(Edges(s), i, idx) then s[i].(used := false) else s[i]
  {
    seq(|s|, (i: nat) requires i < |s| => if AtOrBelow(Edges(s), i, idx) then s[i].(used := false) else s[i])
  }

  lemma BuriedEdges(s: Arena, idx: nat, i: nat)
    requires WellFormed(s) && Valid(s, idx) && i < |s|
    ensures Edges(Buried(s, idx))[i] == if AtOrBelow(Edges(s), i, idx) then None else Edges(s)[i]
  {
    var e := Edges(s);
    if e[i].Some? {
      ReachesFirstStep(e, i, idx);
    }
  }

  lemma {:induction false} BuriedUp(s: Arena, idx: nat, i: nat, k: nat)
    requires WellFormed(s) && Valid(s, idx) && i < |s| && !AtOrBelow(Edges(s), i, idx)
    ensures Up(Edges(Buried(s, idx)), i, k) == Up(Edges(s), i, k)
    ensures Up(Edges(s), i, k).Some? ==> !AtOrBelow(Edges(s), Up(Edges(s), i, k).value, idx)
  {
    if k > 0 {
      BuriedUp(s, idx, i, k - 1);
      var u := Up(Edges(s), i, k - 1);
      if u.Some? {
        BuriedEdges(s, idx, u.value);
        ReachesFirstStep(Edges(s), u.value, idx);
      }
    }
  }

  lemma BuriedReaches(s: Arena, idx: nat, i: nat, d: nat)
    requires WellFormed(s) && Valid(s, idx) && i < |s|
    ensures Reaches(Edges(Buried(s, idx)), i, d) <==> !AtOrBelow(Edges(s), i, idx) && Reaches(Edges(s), i, d)
  {
    var e, e' := Edges(s), Edges(Buried(s, idx));
    if AtOrBelow(e, i, idx) {
      BuriedEdges(s, idx, i);
      ReachesFirstStep(e', i, d);
    } else {
      forall k: nat ensures Up(e', i, k) == Up(e, i, k) { BuriedUp(s, idx, i, k); }
      if Reaches(e', i, d) {
        var k: nat :| k >= 1 && Up(e', i, k) == Some(d);
        assert Up(e, i, k) == Some(d);
      }
      if Reaches(e, i, d) {
        var k: nat :| k >= 1 && Up(e, i, k) == Some(d);
        assert Up(e', i, k) == Some(d);
      }
    }
  }

  ghost function GoneWeight(e: Graph, w: nat -> nat, idx: nat, d: nat): nat -> nat
  {
    (i: nat) => if AtOrBelow(e, i, idx) && Reaches(e, idx, d) then w(i) else 0
  }

  lemma {:induction false} GoneTotal(e: Graph, w: nat -> nat, idx: nat, d: nat)
    requires idx < |e| && !OnCycle(e, idx)
    ensures Sum(|e|, GoneWeight(e, w, idx, d)) == if Reaches(e, idx, d) then Branch(e, w, idx) else 0
  {
    if Reaches(e, idx, d) {
      forall i: nat | i < |e| && i != idx ensures GoneWeight(e, w, idx, d)(i) == BelowWeight(e, w, idx)(i) {
        assert AtOrBelow(e, i, idx) == Reaches(e, i, idx);
      }
      SumPoint(|e|, BelowWeight(e, w, idx), GoneWeight(e, w, idx, d), idx, w(idx));
    } else {
      SumZero(|e|, GoneWeight(e, w, idx, d));
    }
  }

  lemma BuriedTotal(s: Arena, idx: nat, d: nat, w: nat -> nat, w': nat -> nat)
    requires WellFormed(s) && Valid(s, idx)
    requires d < |s| && !AtOrBelow(Edges(s), d, idx)
    requires forall i: nat :: i < |s| ==> w'(i) == if AtOrBelow(Edges(s), i, idx) then 0 else w(i)
    ensures Total(Edges(Buried(s, idx)), w', d) + (if Reaches(Edges(s), idx, d) then Branch(Edges(s), w, idx) else 0)
         == Total(Edges(s), w, d)
  {
    var e, e' := Edges(s), Edges(Buried(s, idx));
    GoneTotal(e, w, idx, d);
    forall i: nat | i < |s|
      ensures BelowWeight(e', w', d)(i) + GoneWeight(e, w, idx, d)(i) == BelowWeight(e, w, d)(i)
    {
      BuriedReaches(s, idx, i, d);
      if AtOrBelow(e, i, idx) {
        if Reaches(e, idx, d) {
          if i != idx { ReachesTransitive(e, i, idx, d); }
        } else if Reaches(e, i, d) {
          ChainLinear(e, i, idx, d);
        }
      }
    }
    SumAdd(|s|, BelowWeight(e', w', d), GoneWeight(e, w, idx, d), BelowWeight(e, w, d));
  }

  lemma BuriedTotals(s: Arena, idx: nat, d: nat)
    requires WellFormed(s) && Valid(s, idx)
    requires d < |s| && !AtOrBelow(Edges(s), d, idx)
    ensures BytesBelow(Buried(s, idx), d) + (if Reaches(Edges(s), idx, d) then Branch(Edges(s), SizeWeight(s), idx) else 0) == BytesBelow(s, d)
    ensures FilesBelow(Buried(s, idx), d) + (if Reaches(Edges(s), idx, d) then Branch(Edges(s), CountWeight(s), idx) else 0) == FilesBelow(s, d)
  {
    var t := Buried(s, idx);
    BuriedTotal(s, idx, d, SizeWeight(s), SizeWeight(t));
    BuriedTotal(s, idx, d, CountWeight(s), CountWeight(t));
  }

  lemma BuriedIsTree(s: Arena, idx: nat)
    requires WellFormed(s) && Valid(s, idx) && idx != 0
    ensures WellFormed(Buried(s, idx))
  {
    var e, t := Edges(s), Buried(s, idx);
    assert !AtOrBelow(e, 0, idx) by { ReachesFirstStep(e, 0, idx); }
    forall i | 0 < i < |t| && t[i].used ensures IsDir(t, t[i].parent) && t[i].parent != i {
      ReachesFirstStep(e, i, idx);
    }
    forall i | 0 <= i < |t| ensures !OnCycle(Edges(t), i) {
      BuriedReaches(s, idx, i, i);
      assert !OnCycle(e, i);
    }
  }

  lemma BuriedWellFormed(s: Arena, idx: nat)
    requires WellFormed(s) && Shallow(s) && Valid(s, idx) && idx != 0
    ensures WellFormed(Buried(s, idx)) && Shallow(Buried(s, idx))
  {
    var t := Buried(s, idx);
    BuriedIsTree(s, idx);
    forall i | Valid(t, i) ensures Up(Edges(t), i, WALK_LIMIT).None? { BuriedUp(s, idx, i, WALK_LIMIT); }
  }

  // -- What a live node weighs -----------------------------------------------------------

  /** What SizeOf and FileCountOf report is the node's whole branch. */
  lemma ReportedIsBranch(s: Arena, i: nat)
    requires ExactTotals(s) && Valid(s, i)
    ensures s[i].size == Branch(Edges(s), SizeWeight(s), i)
    ensures (if s[i].isDir then s[i].files else 1) == Branch(Edges(s), CountWeight(s), i)
  {
    if !s[i].isDir {
      NothingBelowFile(s, SizeWeight(s), i);
      NothingBelowFile(s, CountWeight(s), i);
    }
  }

  // -- Edits as the index performs them ------------------------------------------------

  function AddTotals(size: U64, files: U64): Slot -> Slot
  {
    (e: Slot) => e.(size := SaturatingAdd(e.size, size), files := SaturatingAdd(e.files, files))
  }

  function SubTotals(size: U64, files: U64): Slot -> Slot
  {
    (e: Slot) => e.(size := SaturatingSub(e.size, size), files := SaturatingSub(e.files, files))
  }

  function SwapSize(old_: U64, new_: U64): Slot -> Slot
  {
    (e: Slot) => e.(size := SaturatingAdd(SaturatingSub(e.size, old_), new_))
  }

  /** A directory's ancestors-or-self are live directories. */
  lemma AboveDirIsDir(s: Arena, p: nat, d: nat)
    requires WellFormed(s) && IsDir(s, p) && AtOrBelow(Edges(s), p, d)
    ensures IsDir(s, d)
  {
    if p != d {
      var c := ReachesLastStep(Edges(s), p, d);
      assert HeapEdge(s, c) == Some(d);
    }
  }

  /** A walk from p that corrects every directory at or above p leaves all totals exact. */
  lemma ExactAfterWalk(t: Arena, p: nat, fn: Slot -> Slot)
    requires WellFormed(t) && Shallow(t) && IsDir(t, p) && OnlyTotals(fn)
    requires forall d :: IsDir(t, d) ==>
      var e := if AtOrBelow(Edges(t), p, d) then fn(t[d]) else t[d];
      e.size == BytesBelow(t, d) && e.files == FilesBelow(t, d)
    ensures Exact(Touch(t, Chain(t, p), fn))
    ensures SameButTotals(t, Touch(t, Chain(t, p), fn))
  {
    var u := Touch(t, Chain(t, p), fn);
    ChainIsAncestors(t, p);
    forall d: nat | d in Chain(t, p) ensures IsDir(t, d) { AboveDirIsDir(t, p, d); }
    SameGraph(t, u);
  }

  /** Removing idx: bury its subtree, then take its reported totals off every ancestor. */
  ghost function Removed(s: Arena, idx: nat): (t: Arena)
    requires Valid(s, idx)
  {
    var t := Buried(s, idx);
    if idx == 0 then t
    else Touch(t, Chain(t, s[idx].parent), SubTotals(s[idx].size, if s[idx].isDir then s[idx].files else 1))
  }

  lemma RemovedDir(s: Arena, idx: nat, d: nat)
    requires Exact(s) && Valid(s, idx) && idx != 0 && IsDir(Buried(s, idx), d)
    requires s[idx].size == Branch(Edges(s), SizeWeight(s), idx)
    requires (if s[idx].isDir then s[idx].files else 1) == Branch(Edges(s), CountWeight(s), idx)
    ensures var x := if AtOrBelow(Edges(Buried(s, idx)), s[idx].parent, d)
                     then SubTotals(s[idx].size, if s[idx].isDir then s[idx].files else 1)(s[d]) else s[d];
            x.size == BytesBelow(Buried(s, idx), d) && x.files == FilesBelow(Buried(s, idx), d)
  {
    var e, p := Edges(s), s[idx].parent;
    BuriedTotals(s, idx, d);
    assert e[idx] == Some(p);
    BuriedReaches(s, idx, p, d);
    ReachesFirstStep(e, idx, d);
    EdgeReaches(e, idx, p);
    if AtOrBelow(e, p, idx) {
      if p != idx { ReachesTransitive(e, idx, p, idx); }
      assert OnCycle(e, idx);
    }
  }

  lemma ParentSurvives(s: Arena, idx: nat)
    requires WellFormed(s) && Valid(s, idx) && idx != 0
    ensures IsDir(Buried(s, idx), s[idx].parent)
  {
    var e, p := Edges(s), s[idx].parent;
    assert e[idx] == Some(p);
    EdgeReaches(e, idx, p);
    if AtOrBelow(e, p, idx) {
      if p != idx { ReachesTransitive(e, idx, p, idx); }
      assert OnCycle(e, idx);
    }
  }

  lemma RemovedWellFormed(s: Arena, idx: nat)
    requires WellFormed(s) && Valid(s, idx) && idx != 0
    ensures WellFormed(Removed(s, idx)) && IsDir(Removed(s, idx), s[idx].parent)
  {
    var t := Buried(s, idx);
    BuriedIsTree(s, idx);
    ParentSurvives(s, idx);
    WalkKeepsTree(t, Chain(t, s[idx].parent), SubTotals(s[idx].size, if s[idx].isDir then s[idx].files else 1));
  }

  lemma WalkKeepsTree(s: Arena, chain: seq<nat>, fn: Slot -> Slot)
    requires WellFormed(s) && OnlyTotals(fn)
    ensures WellFormed(Touch(s, chain, fn))
    ensures forall i :: IsDir(Touch(s, chain, fn), i) == IsDir(s, i)
  {
    var t := Touch(s, chain, fn);
    forall i | 0 <= i < |s| ensures t[i] == s[i].(size := t[i].size, files := t[i].files) {
      KeepsIdentity(fn, s[i]);
    }
    hide Touch, OnlyTotals;
    assert Edges(t) == Edges(s);
  }

  lemma RemoveKeepsExact(s: Arena, idx: nat)
    requires Exact(s) && Valid(s, idx) && idx != 0
    ensures Exact(Removed(s, idx))
    ensures SameButTotals(Buried(s, idx), Removed(s, idx))
  {
    var t, p := Buried(s, idx), s[idx].parent;
    var fn := SubTotals(s[idx].size, if s[idx].isDir then s[idx].files else 1);
    BuriedWellFormed(s, idx);
    ParentSurvives(s, idx);
    forall d | IsDir(t, d)
      ensures var x := if AtOrBelow(Edges(t), p, d) then fn(t[d]) else t[d];
              x.size == BytesBelow(t, d) && x.files == FilesBelow(t, d)
    {
      ReportedIsBranch(s, idx);
      RemovedDir(s, idx, d);
    }
    ExactAfterWalk(t, p, fn);
  }

  /** Adding a file under p: append its slot, then credit every ancestor. */
  function WithLeaf(s: Arena, leaf: Slot): (t: Arena)
  {
    Touch(s + [leaf], Chain(s + [leaf], leaf.parent), AddTotals(leaf.size, 1))
  }

  lemma LeafKeepsExact(s: Arena, leaf: Slot)
    requires Exact(s) && leaf.used && !leaf.isDir && IsDir(s, leaf.parent)
    requires Up(Edges(s), leaf.parent, WALK_LIMIT - 1).None?
    requires BytesBelow(s, 0) + leaf.size <= MAX_U64 && |s| < MAX_U32
    ensures Exact(WithLeaf(s, leaf))
    ensures BytesBelow(WithLeaf(s, leaf), 0) == BytesBelow(s, 0) + leaf.size
  {
    var t, p := s + [leaf], leaf.parent;
    LeafWellFormed(s, leaf);
    LeafExtends(s, leaf);
    LiveBelowRoot(s, p);
    forall d | IsDir(t, d)
      ensures var x := if AtOrBelow(Edges(t), p, d) then AddTotals(leaf.size, 1)(t[d]) else t[d];
              x.size == BytesBelow(t, d) && x.files == FilesBelow(t, d)
    {
      assert d < |s|;
      LeafTotals(s, leaf, d);
      ReachesExtends(Edges(s), Edges(t), p, d);
      LiveBelowRoot(s, d);
      TotalMonotone(s, SizeWeight(s), d, 0);
      FilesBounded(s, d);
    }
    ExactAfterWalk(t, p, AddTotals(leaf.size, 1));
    LeafTotals(s, leaf, 0);
    SameGraph(t, WithLeaf(s, leaf));
  }

  /** Rewriting a file's size: replace the slot, then swap the old size for the new one in every ancestor. */
  function WithSize(s: Arena, i: nat, size: U64, mtime: U64): (t: Arena)
    requires IsFile(s, i)
  {
    var t := Resized(s, i, size, mtime);
    Touch(t, Chain(t, s[i].parent), SwapSize(s[i].size, size))
  }

  lemma ResizedDir(s: Arena, i: nat, size: U64, mtime: U64, d: nat)
    requires Exact(s) && IsFile(s, i) && IsDir(s, d) && WellFormed(Resized(s, i, size, mtime))
    requires BytesBelow(s, 0) - s[i].size + size <= MAX_U64
    requires BytesBelow(Resized(s, i, size, mtime), 0) == BytesBelow(s, 0) - s[i].size + size
    ensures var t := Resized(s, i, size, mtime);
      var x := if AtOrBelow(Edges(s), s[i].parent, d) then SwapSize(s[i].size, size)(t[d]) else t[d];
      x.size == BytesBelow(t, d) && x.files == FilesBelow(t, d)
  {
    var t, e := Resized(s, i, size, mtime), Edges(s);
    ResizedTotals(s, i, size, mtime, d);
    ReachesFirstStep(e, i, d);
    LiveBelowRoot(t, d);
    TotalMonotone(t, SizeWeight(t), d, 0);
    if Reaches(e, i, d) { SumTerm(|s|, BelowWeight(e, SizeWeight(s), d), i); }
  }

  lemma ResizeKeepsExact(s: Arena, i: nat, size: U64, mtime: U64)
    requires Exact(s) && IsFile(s, i)
    requires BytesBelow(s, 0) - s[i].size + size <= MAX_U64
    ensures Exact(WithSize(s, i, size, mtime))
    ensures BytesBelow(WithSize(s, i, size, mtime), 0) == BytesBelow(s, 0) - s[i].size + size
  {
    var t, p, e := Resized(s, i, size, mtime), s[i].parent, Edges(s);
    ResizedTotals(s, i, size, mtime, 0);
    assert WellFormed(t) && Shallow(t);
    assert e[i] == Some(p);
    LiveBelowRoot(t, i);
    forall d | IsDir(t, d)
      ensures var x := if AtOrBelow(e, p, d) then SwapSize(s[i].size, size)(t[d]) else t[d];
              x.size == BytesBelow(t, d) && x.files == FilesBelow(t, d)
    {
      ResizedDir(s, i, size, mtime, d);
    }
    hide WellFormed, Shallow, IsDir, AtOrBelow, BytesBelow, FilesBelow, SizeWeight, CountWeight, Touch, Chain;
    ExactAfterWalk(t, p, SwapSize(s[i].size, size));
    SameGraph(t, WithSize(s, i, size, mtime));
  }

  // -- Identities survive, totals only shrink by removal ---------------------------------

  /** Identities never change and the dead stay dead. */
  ghost predicate Persists(s: Arena, t: Arena)
  {
    && |s| <= |t|
    && forall i :: 0 <= i < |s| ==> t[i].name == s[i].name && t[i].parent == s[i].parent && (t[i].used ==> s[i].used)
  }

  lemma WalkPersists(s: Arena, t: Arena, chain: seq<nat>, fn: Slot -> Slot)
    requires Persists(s, t) && OnlyTotals(fn)
    ensures Persists(s, Touch(t, chain, fn))
  {
  }

  lemma RemovedPersists(s: Arena, idx: nat)
    requires Valid(s, idx)
    ensures Persists(s, Removed(s, idx))
  {
    var t := Buried(s, idx);
    if idx != 0 {
      WalkPersists(s, t, Chain(t, s[idx].parent), SubTotals(s[idx].size, if s[idx].isDir then s[idx].files else 1));
    }
  }

  lemma RemovedWeighsLess(s: Arena, idx: nat)
    requires Exact(s) && Valid(s, idx) && idx != 0
    ensures BytesBelow(Removed(s, idx), 0) <= BytesBelow(s, 0)
  {
    BuriedWellFormed(s, idx);
    assert Valid(Buried(s, idx), 0);
    BuriedTotals(s, idx, 0);
    RemoveKeepsExact(s, idx);
    SameGraph(Buried(s, idx), Removed(s, idx));
  }

  /** Depths seen from a surviving node do not change. */
  lemma {:induction false} RemovedDepth(s: Arena, idx: nat, p: nat, k: nat)
    requires Exact(s) && Valid(s, idx) && idx != 0 && Valid(Removed(s, idx), p)
    ensures Up(Edges(Removed(s, idx)), p, k) == Up(Edges(s), p, k)
  {
    RemoveKeepsExact(s, idx);
    SameGraph(Buried(s, idx), Removed(s, idx));
    BuriedUp(s, idx, p, k);
  }
}
