/** What lies where in a tree, and what edits leave of it. */
module Contents {
  import opened Words
  import opened Forest
  import opened Slots
  import opened Ancestors
  import opened Edits
  import opened Grafting
  import opened ChildRows
  import opened Coverage
  import opened SizeTrees

  // -- Lying at a path -----------------------------------------------------------------------

  /** A live node whose names from the root down fold like the path's. */
  ghost predicate LiesAt(s: Arena, fold: Fold, k: nat, path: seq<Name>)
    decreases |path|
  {
    && Valid(s, k)
    && if path == [] then k == 0
       else k != 0 && fold(s[k].name) == fold(path[|path| - 1]) && LiesAt(s, fold, s[k].parent, path[..|path| - 1])
  }

  /** q is p or above it, up to folding. */
  ghost predicate Covers(fold: Fold, q: seq<Name>, p: seq<Name>)
  {
    |q| <= |p| && forall i :: 0 <= i < |q| ==> fold(q[i]) == fold(p[i])
  }

  /** No directory has two live children that fold alike. */
  ghost predicate FoldApart(s: Arena, fold: Fold)
  {
    forall a: nat, b: nat {:trigger s[a], s[b]} :: 0 < a < |s| && 0 < b < |s| && s[a].used && s[b].used && s[a].parent == s[b].parent && fold(s[a].name) == fold(s[b].name) ==> a == b
  }

  /** The slot as it was but for the totals of a directory. */
  ghost predicate Kept(e: Slot, e': Slot)
  {
    e' == if e.isDir then e.(size := e'.size, files := e'.files) else e
  }

  lemma {:induction false} CoversBelow(fold: Fold, q: seq<Name>, p: seq<Name>)
    requires p != []
    ensures Covers(fold, q, p[..|p| - 1]) ==> Covers(fold, q, p)
    ensures Covers(fold, q, p) && |q| < |p| ==> Covers(fold, q, p[..|p| - 1])
  {
  }

  /** A node lies at one path only. */
  lemma {:induction false} LiesOnce(s: Arena, fold: Fold, k: nat, p: seq<Name>, q: seq<Name>)
    requires LiesAt(s, fold, k, p) && LiesAt(s, fold, k, q)
    ensures |p| == |q| && Covers(fold, q, p)
    decreases |p|
  {
    if p != [] && q != [] { LiesOnce(s, fold, s[k].parent, p[..|p| - 1], q[..|q| - 1]); }
  }

  /** What hangs at or below a node lies at or below its path. */
  lemma {:induction false} BelowCovers(s: Arena, fold: Fold, k: nat, p: seq<Name>, r: nat, q: seq<Name>)
    requires WellFormed(s) && LiesAt(s, fold, k, p) && LiesAt(s, fold, r, q) && AtOrBelow(Edges(s), k, r)
    ensures Covers(fold, q, p)
    decreases |p|
  {
    hide Reaches, Acyclic;
    if k == r {
      LiesOnce(s, fold, k, p, q);
    } else {
      ReachesFirstStep(Edges(s), k, r);
      BelowCovers(s, fold, s[k].parent, p[..|p| - 1], r, q);
      CoversBelow(fold, q, p);
    }
  }

  /** Lying at a path is lying at any that folds like it. */
  lemma {:induction false} LiesFolded(s: Arena, fold: Fold, k: nat, p: seq<Name>, q: seq<Name>)
    requires LiesAt(s, fold, k, p) && |p| == |q| && Covers(fold, q, p)
    ensures LiesAt(s, fold, k, q)
    decreases |p|
  {
    if p != [] {
      LiesFolded(s, fold, s[k].parent, p[..|p| - 1], q[..|q| - 1]);
      assert fold(p[|p| - 1]) == fold(q[|q| - 1]);
    }
  }

  /** A lookup finds a node that lies at the path. */
  lemma {:induction false} FoundLies(s: Arena, rows: Rows, fold: Fold, path: seq<Name>)
    requires RowsFit(s, rows) && Resolve(s, rows, fold, path).Some?
    ensures LiesAt(s, fold, Resolve(s, rows, fold, path).value, path)
  {
    if path != [] {
      var n := |path| - 1;
      FoundLies(s, rows, fold, path[..n]);
      var p, k := Resolve(s, rows, fold, path[..n]).value, Resolve(s, rows, fold, path).value;
      assert k in rows[p];
    }
  }

  /** Where names fold apart, it finds whatever lies there. */
  lemma {:induction false} LyingIsFound(s: Arena, rows: Rows, fold: Fold, k: nat, path: seq<Name>)
    requires WellFormed(s) && RowsFit(s, rows) && FoldApart(s, fold) && LiesAt(s, fold, k, path)
    ensures Resolve(s, rows, fold, path) == Some(k)
    decreases |path|
  {
    hide Acyclic;
    if path != [] {
      var n := |path| - 1;
      var p: nat := s[k].parent;
      LyingIsFound(s, rows, fold, p, path[..n]);
      assert ChildOf(Edges(s), k, p);
      assert k in rows[p] && Named(s, fold, fold(path[n]), k);
      var found := Lookup(s, rows, fold, p, path[n]);
      assert found.Some?;
      assert found.value in rows[p];
    }
  }

  /** The path of a node that lies at a path is that path, up to folding. */
  lemma {:induction false} LyingHasPath(s: Arena, fold: Fold, k: nat, path: seq<Name>, fuel: nat)
    requires WellFormed(s) && LiesAt(s, fold, k, path)
    ensures var r := PathFrom(s, k, fuel); r.Some? ==> |r.value| == |path| && Covers(fold, r.value, path)
    ensures |path| < fuel && (forall i :: 0 < i < |s| && s[i].used ==> Joinable(s[i].name)) ==> PathFrom(s, k, fuel).Some?
    decreases |path|
  {
    hide Acyclic, Joinable;
    if fuel > 0 && path != [] { LyingHasPath(s, fold, s[k].parent, path[..|path| - 1], fuel - 1); }
  }

  // -- Edits that leave a path alone ------------------------------------------------------------

  /** What lies at the path is what lay there. */
  ghost predicate LeavesAt(s: Arena, t: Arena, fold: Fold, path: seq<Name>)
  {
    && |s| <= |t|
    && (forall k: nat :: LiesAt(s, fold, k, path) ==> LiesAt(t, fold, k, path) && Kept(s[k], t[k]))
    && forall k: nat :: LiesAt(t, fold, k, path) ==> k < |s| && LiesAt(s, fold, k, path)
  }

  lemma {:induction false} LeavesCompose(r: Arena, s: Arena, t: Arena, fold: Fold, path: seq<Name>)
    requires LeavesAt(r, s, fold, path) && LeavesAt(s, t, fold, path)
    ensures LeavesAt(r, t, fold, path)
  {
  }

  lemma LeavesSame(s: Arena, fold: Fold, path: seq<Name>)
    ensures LeavesAt(s, s, fold, path)
  {
  }

  /** Old slots that are still live are the nodes they were, and only what lies under q may be new or gone. */
  ghost predicate EditsUnder(s: Arena, t: Arena, fold: Fold, q: seq<Name>)
  {
    && |s| <= |t|
    && (forall k: nat {:trigger t[k]} :: k < |s| && t[k].used ==> s[k].used && t[k].name == s[k].name && t[k].parent == s[k].parent)
    && (forall k: nat, p: seq<Name> :: LiesAt(s, fold, k, p) && !Covers(fold, q, p) ==> Kept(s[k], t[k]))
    && forall k: nat, p: seq<Name> :: |s| <= k && LiesAt(t, fold, k, p) ==> Covers(fold, q, p)
  }

  lemma {:induction false} StaysThere(s: Arena, t: Arena, fold: Fold, q: seq<Name>, k: nat, p: seq<Name>)
    requires EditsUnder(s, t, fold, q) && LiesAt(s, fold, k, p) && !Covers(fold, q, p)
    ensures LiesAt(t, fold, k, p)
    decreases |p|
  {
    assert Kept(s[k], t[k]);
    if p != [] {
      CoversBelow(fold, q, p);
      StaysThere(s, t, fold, q, s[k].parent, p[..|p| - 1]);
    }
  }

  lemma {:induction false} WasThere(s: Arena, t: Arena, fold: Fold, k: nat, p: seq<Name>)
    requires WellFormed(s) && |s| <= |t| && forall k: nat {:trigger t[k]} :: k < |s| && t[k].used ==> s[k].used && t[k].name == s[k].name && t[k].parent == s[k].parent
    requires k < |s| && LiesAt(t, fold, k, p)
    ensures LiesAt(s, fold, k, p)
    decreases |p|
  {
    hide Acyclic;
    if p != [] { WasThere(s, t, fold, s[k].parent, p[..|p| - 1]); }
  }

  lemma {:induction false} LeavesOthers(s: Arena, t: Arena, fold: Fold, q: seq<Name>, p: seq<Name>)
    requires WellFormed(s) && EditsUnder(s, t, fold, q) && !Covers(fold, q, p)
    ensures LeavesAt(s, t, fold, p)
  {
    hide WellFormed;
    forall k: nat | LiesAt(s, fold, k, p) ensures LiesAt(t, fold, k, p) && Kept(s[k], t[k]) { StaysThere(s, t, fold, q, k, p); }
    forall k: nat | LiesAt(t, fold, k, p) ensures k < |s| && LiesAt(s, fold, k, p) {
      if k < |s| { WasThere(s, t, fold, k, p); }
    }
  }

  // -- Removal ---------------------------------------------------------------------------------

  lemma {:induction false} RemovedUnder(s: Arena, fold: Fold, idx: nat, q: seq<Name>)
    requires Exact(s) && LiesAt(s, fold, idx, q) && idx != 0
    ensures EditsUnder(s, Removed(s, idx), fold, q)
    ensures forall k: nat {:trigger Removed(s, idx)[k]} :: k < |s| ==> (Removed(s, idx)[k].used <==> s[k].used && !AtOrBelow(Edges(s), k, idx))
  {
    hide Removed, Acyclic, AtOrBelow, Edges, ExactTotals, Shallow;
    RemoveKeepsExact(s, idx);
    var t := Removed(s, idx);
    assert SameButTotals(Buried(s, idx), t);
    forall k: nat, p: seq<Name> | LiesAt(s, fold, k, p) && !Covers(fold, q, p) ensures Kept(s[k], t[k]) {
      if AtOrBelow(Edges(s), k, idx) { BelowCovers(s, fold, k, p, idx, q); }
    }
  }

  /** Nothing lies at or below the path of a removed node where names fold apart. */
  lemma {:induction false} NothingLeft(s: Arena, t: Arena, fold: Fold, idx: nat, q: seq<Name>, k: nat, p: seq<Name>)
    requires WellFormed(s) && FoldApart(s, fold) && LiesAt(s, fold, idx, q) && |t| == |s|
    requires forall k: nat {:trigger t[k]} :: k < |s| && t[k].used ==> s[k].used && t[k].name == s[k].name && t[k].parent == s[k].parent
    requires !t[idx].used && Covers(fold, q, p)
    ensures !LiesAt(t, fold, k, p)
    decreases |p|
  {
    if LiesAt(t, fold, k, p) {
      if |p| == |q| {
        WasThere(s, t, fold, k, p);
        SamePlace(s, fold, k, p, idx, q);
      } else {
        CoversBelow(fold, q, p);
        NothingLeft(s, t, fold, idx, q, t[k].parent, p[..|p| - 1]);
      }
    }
  }

  /** Where names fold apart, one node lies at a path. */
  lemma {:induction false} SamePlace(s: Arena, fold: Fold, a: nat, p: seq<Name>, b: nat, q: seq<Name>)
    requires FoldApart(s, fold) && LiesAt(s, fold, a, p) && LiesAt(s, fold, b, q) && |p| == |q| && Covers(fold, q, p)
    ensures a == b
    decreases |p|
  {
    if p != [] {
      SamePlace(s, fold, s[a].parent, p[..|p| - 1], s[b].parent, q[..|q| - 1]);
      assert fold(q[|q| - 1]) == fold(p[|p| - 1]);
    }
  }

  lemma {:induction false} RemovedApart(s: Arena, t: Arena, fold: Fold)
    requires FoldApart(s, fold) && |t| == |s|
    requires forall k: nat {:trigger t[k]} :: k < |s| && t[k].used ==> s[k].used && t[k].name == s[k].name && t[k].parent == s[k].parent
    ensures FoldApart(t, fold)
  {
  }

  // -- Writing a file ----------------------------------------------------------------------------

  /** A live file of exactly this name, size and time lies at the path. */
  ghost predicate FileAt(s: Arena, fold: Fold, path: seq<Name>, size: U64, mtime: U64)
  {
    path != [] && exists k: nat :: IsFile(s, k) && LiesAt(s, fold, k, path) && s[k].name == path[|path| - 1] && s[k].size == size && s[k].mtime == mtime
  }

  lemma {:induction false} FileStays(s: Arena, t: Arena, fold: Fold, path: seq<Name>, size: U64, mtime: U64)
    requires FileAt(s, fold, path, size, mtime) && LeavesAt(s, t, fold, path)
    ensures FileAt(t, fold, path, size, mtime)
  {
    var k: nat :| IsFile(s, k) && LiesAt(s, fold, k, path) && s[k].name == path[|path| - 1] && s[k].size == size && s[k].mtime == mtime;
    assert LiesAt(t, fold, k, path);
  }

  lemma {:induction false} SizedUnder(s: Arena, fold: Fold, i: nat, size: U64, mtime: U64, q: seq<Name>)
    requires Exact(s) && IsFile(s, i) && i != 0 && LiesAt(s, fold, i, q) && q != [] && s[i].name == q[|q| - 1] && BytesBelow(s, 0) + size <= MAX_U64
    ensures var t := WithSize(s, i, size, mtime); EditsUnder(s, t, fold, q) && FileAt(t, fold, q, size, mtime) && (FoldApart(s, fold) ==> FoldApart(t, fold))
  {
    hide Acyclic, Edges, ExactTotals, Shallow, BytesBelow, WithSize;
    ResizedTotals(s, i, size, mtime, 0);
    ResizeKeepsExact(s, i, size, mtime);
    var t := WithSize(s, i, size, mtime);
    SizedSlots(s, i, size, mtime);
    forall k: nat, p: seq<Name> | LiesAt(s, fold, k, p) && !Covers(fold, q, p) ensures Kept(s[k], t[k]) {
      if k == i { LiesOnce(s, fold, i, p, q); }
    }
    LiesOn(s, t, fold, i, q);
  }

  /** Links, names and life unchanged, everything lies where it lay. */
  lemma {:induction false} LiesOn(s: Arena, t: Arena, fold: Fold, k: nat, p: seq<Name>)
    requires |s| <= |t| && LiesAt(s, fold, k, p) && forall i :: 0 <= i < |s| ==> t[i].used == s[i].used && t[i].name == s[i].name && t[i].parent == s[i].parent
    ensures LiesAt(t, fold, k, p)
    decreases |p|
  {
    if p != [] { LiesOn(s, t, fold, s[k].parent, p[..|p| - 1]); }
  }

  lemma {:induction false} SizedSlots(s: Arena, i: nat, size: U64, mtime: U64)
    requires Exact(s) && IsFile(s, i) && i != 0
    ensures var t := WithSize(s, i, size, mtime); |t| == |s| && t[i] == s[i].(size := size, mtime := mtime) && forall k :: 0 <= k < |s| && k != i ==> Kept(s[k], t[k])
  {
    hide Touch, Chain, Exact, WellFormed, Shallow;
    var r := Resized(s, i, size, mtime);
    var p := s[i].parent;
    ResizedTree(s, i, size, mtime);
    DirChain(r, p);
    WalkKeeps(r, Chain(r, p), SwapSize(s[i].size, size));
  }

  lemma {:induction false} ResizedTree(s: Arena, i: nat, size: U64, mtime: U64)
    requires Exact(s) && IsFile(s, i) && i != 0
    ensures var r := Resized(s, i, size, mtime); WellFormed(r) && Shallow(r) && IsDir(r, r[i].parent)
  {
    hide ExactTotals, Up, Acyclic;
    assert Edges(Resized(s, i, size, mtime)) == Edges(s);
  }

  /** The walk from a directory meets directories only. */
  lemma {:induction false} DirChain(t: Arena, p: nat)
    requires WellFormed(t) && Shallow(t) && IsDir(t, p)
    ensures forall d :: d in Chain(t, p) ==> IsDir(t, d)
  {
    ChainIsAncestors(t, p);
    forall d: nat | d in Chain(t, p) ensures IsDir(t, d) { AboveDirIsDir(t, p, d); }
  }

  lemma {:induction false} WalkKeeps(t: Arena, chain: seq<nat>, fn: Slot -> Slot)
    requires OnlyTotals(fn) && forall d :: d in chain ==> IsDir(t, d)
    ensures |Touch(t, chain, fn)| == |t| && forall k :: 0 <= k < |t| ==> Kept(t[k], Touch(t, chain, fn)[k])
  {
    forall k | 0 <= k < |t| ensures Kept(t[k], Touch(t, chain, fn)[k]) { KeepsIdentity(fn, t[k]); }
  }

  lemma {:induction false} LeafSlots(s: Arena, leaf: Slot)
    requires Exact(s) && leaf.used && !leaf.isDir && IsDir(s, leaf.parent) && Up(Edges(s), leaf.parent, WALK_LIMIT - 1).None?
    ensures var t := WithLeaf(s, leaf); |t| == |s| + 1 && t[|s|] == leaf && forall k :: 0 <= k < |s| ==> Kept(s[k], t[k])
  {
    var r := s + [leaf];
    LeafWellFormed(s, leaf);
    DirChain(r, leaf.parent);
    WalkKeeps(r, Chain(r, leaf.parent), AddTotals(leaf.size, 1));
  }

  lemma {:induction false} LeafUnder(s: Arena, fold: Fold, leaf: Slot, q: seq<Name>)
    requires Exact(s) && leaf.used && !leaf.isDir && IsDir(s, leaf.parent) && Up(Edges(s), leaf.parent, WALK_LIMIT - 1).None?
    requires q != [] && LiesAt(s, fold, leaf.parent, q[..|q| - 1]) && leaf.name == q[|q| - 1]
    ensures var t := WithLeaf(s, leaf); EditsUnder(s, t, fold, q) && FileAt(t, fold, q, leaf.size, leaf.mtime)
  {
    hide Acyclic, Edges, ExactTotals, Shallow, WithLeaf;
    LeafSlots(s, leaf);
    var t := WithLeaf(s, leaf);
    LiesOn(s, t, fold, leaf.parent, q[..|q| - 1]);
    forall k: nat, p: seq<Name> | |s| <= k && LiesAt(t, fold, k, p) ensures Covers(fold, q, p) {
      LiesOnce(t, fold, leaf.parent, p[..|p| - 1], q[..|q| - 1]);
      assert fold(p[|p| - 1]) == fold(q[|q| - 1]);
    }
    assert LiesAt(t, fold, |s|, q);
  }

  /** No live child of p folds like the name. */
  ghost predicate Vacant(s: Arena, fold: Fold, p: nat, name: Name)
  {
    forall a: nat {:trigger s[a]} :: 0 < a < |s| && s[a].used && s[a].parent == p ==> fold(s[a].name) != fold(name)
  }

  lemma {:induction false} LeafApart(s: Arena, t: Arena, fold: Fold, leaf: Slot)
    requires FoldApart(s, fold) && Vacant(s, fold, leaf.parent, leaf.name) && |t| == |s| + 1 && t[|s|] == leaf && forall k :: 0 <= k < |s| ==> Kept(s[k], t[k])
    ensures FoldApart(t, fold)
  {
  }

  lemma {:induction false} OnlyMatch(s: Arena, rows: Rows, fold: Fold, p: nat, name: Name, a: nat)
    requires WellFormed(s) && RowsFit(s, rows) && FoldApart(s, fold) && IsDir(s, p) && Valid(s, a) && a != 0 && s[a].parent == p
    ensures fold(s[a].name) == fold(name) ==> Lookup(s, rows, fold, p, name) == Some(a)
  {
    hide Acyclic;
    assert ChildOf(Edges(s), a, p);
    assert a in rows[p];
    var found := Lookup(s, rows, fold, p, name);
    if found.Some? { assert found.value in rows[p]; }
  }

  /** Once the node found under a name is gone, no other child has it. */
  lemma {:induction false} ClearedIsVacant(s: Arena, rows: Rows, fold: Fold, p: nat, name: Name, t: Arena)
    requires WellFormed(s) && RowsFit(s, rows) && FoldApart(s, fold) && IsDir(s, p) && |t| == |s|
    requires forall k: nat {:trigger t[k]} :: k < |s| && t[k].used ==> s[k].used && t[k].name == s[k].name && t[k].parent == s[k].parent
    requires var found := Lookup(s, rows, fold, p, name); found.Some? ==> !t[found.value].used
    ensures Vacant(t, fold, p, name)
  {
    hide WellFormed, RowsFit, Lookup, FoldApart;
    forall a: nat {:trigger t[a]} | 0 < a < |t| && t[a].used && t[a].parent == p ensures fold(t[a].name) != fold(name) {
      OnlyMatch(s, rows, fold, p, name, a);
    }
  }

  // -- Grafting a scan ----------------------------------------------------------------------------

  /** A copy has its original's kind, life and time, a file's size, and, but for the root, its name. */
  ghost predicate Copied(e: Slot, e': Slot, root: bool)
  {
    && e'.isDir == e.isDir && e'.used && e'.mtime == e.mtime && (!e.isDir ==> e'.size == e.size && e'.files == e.files)
    && (!root ==> e'.name == e.name)
  }

  /** The copy of node i of u, after the slots of s: under p by this name if i is the root, else under the copy of its parent. */
  ghost predicate CopyHeld(s: Arena, u: Arena, t: Arena, p: nat, name: Name, i: nat)
    requires Valid(u, i)
  {
    && |s| <= Image(s, u, i) < |t| && Copied(u[i], t[Image(s, u, i)], i == 0)
    && (if i == 0 then t[Image(s, u, i)].parent == p && t[Image(s, u, i)].name == name
        else Valid(u, u[i].parent) && t[Image(s, u, i)].parent == Image(s, u, u[i].parent))
  }

  /** t holds a copy of every live node of u, in order after the slots of s. */
  ghost predicate HoldsCopies(s: Arena, u: Arena, t: Arena, p: nat, name: Name)
  {
    forall i: nat {:trigger u[i]} :: Valid(u, i) ==> CopyHeld(s, u, t, p, name, i)
  }

  lemma {:induction false} GraftSlots(s: Arena, u: Arena, p: U32, name: Name, h: nat)
    requires Exact(s) && Exact(u) && IsDir(s, p) && 0 < |u| && |s| + |u| <= MAX_U32 && h <= WALK_LIMIT
    requires (forall i :: Valid(u, i) ==> Up(Edges(u), i, h).None?) && Up(Edges(s), p, WALK_LIMIT - h).None?
    ensures var t := Grafted(s, u, p, name);
      && |t| == |s| + Rank(u, |u|) && SameButTotals(Joined(s, u, p, name), t) && (forall k :: 0 <= k < |s| ==> Kept(s[k], t[k]))
      && WellFormed(t) && Edges(t) == Edges(Joined(s, u, p, name)) && HoldsCopies(s, u, t, p, name)
  {
    hide Joined, WellFormed, Rank, Edges, Up, ExactTotals, Shallow, Touch, Chain, HoldsCopies;
    var j, t := Joined(s, u, p, name), Grafted(s, u, p, name);
    JoinedWellFormed(s, u, p, name, h);
    JoinedLength(s, u, p, name);
    JoinedKeepsOld(s, u, p, name);
    DirChain(j, p);
    WalkKeeps(j, Chain(j, p), AddTotals(u[0].size, u[0].files));
    WalkKeepsTree(j, Chain(j, p), AddTotals(u[0].size, u[0].files));
    SameGraph(j, t);
    CopiesAre(s, u, p, name, t);
  }

  lemma {:induction false} CopiesAre(s: Arena, u: Arena, p: U32, name: Name, t: Arena)
    requires Graftable(s, u, p)
    requires var j := Joined(s, u, p, name); |t| == |j| && forall k :: 0 <= k < |j| ==> Kept(j[k], t[k])
    ensures HoldsCopies(s, u, t, p, name)
  {
    hide Joined, CopyHeld, Graftable, Kept;
    forall i: nat | Valid(u, i) ensures CopyHeld(s, u, t, p, name, i) { CopyIs(s, u, p, name, t, i); }
  }

  lemma CopyIs(s: Arena, u: Arena, p: U32, name: Name, t: Arena, i: nat)
    requires Graftable(s, u, p) && Valid(u, i)
    requires var j := Joined(s, u, p, name); |t| == |j| && forall k :: 0 <= k < |j| ==> Kept(j[k], t[k])
    ensures CopyHeld(s, u, t, p, name, i)
  {
    hide Joined, Rank, WellFormed, Moved;
    CopyAt(s, u, p, name, i);
    MovedKeeps(u, |s|, p, name, i);
  }

  lemma {:induction false} JoinedKeepsOld(s: Arena, u: Arena, p: U32, name: Name)
    requires |s| + |u| <= MAX_U32
    ensures s <= Joined(s, u, p, name) && |Joined(s, u, p, name)| == |s| + Rank(u, |u|)
  {
  }

  lemma {:induction false} MovedKeeps(u: Arena, start: nat, p: U32, name: Name, i: nat)
    requires WellFormed(u) && Valid(u, i) && start + |u| <= MAX_U32
    ensures Copied(u[i], Moved(u, start, p, name, i), i == 0) && (i == 0 ==> Moved(u, start, p, name, i).name == name)
    ensures i != 0 ==> Valid(u, u[i].parent)
    ensures Moved(u, start, p, name, i).parent == if i == 0 then p as nat else start + Rank(u, u[i].parent)
  {
  }

  /** What a graft needs to know of the tree it left: old slots kept, copies in place. */
  ghost predicate Grew(s: Arena, u: Arena, t: Arena, p: nat, name: Name)
  {
    && WellFormed(s) && WellFormed(u) && IsDir(s, p) && |t| == |s| + Rank(u, |u|) && (forall k :: 0 <= k < |s| ==> Kept(s[k], t[k]))
    && HoldsCopies(s, u, t, p, name)
  }

  /** Every new slot is the copy of a live node. */
  lemma CopyFrom(s: Arena, u: Arena, x: nat) returns (i: nat)
    requires |s| <= x < |s| + Rank(u, |u|)
    ensures Valid(u, i) && Image(s, u, i) == x
  {
    i := LiveIds(u, |u|)[x - |s|];
    RankOfLiveId(u, |u|, x - |s|);
  }

  lemma {:induction false} CopiesLieUnder(s: Arena, u: Arena, t: Arena, fold: Fold, p: nat, q: seq<Name>, k: nat, path: seq<Name>)
    requires q != [] && Grew(s, u, t, p, q[|q| - 1]) && LiesAt(s, fold, p, q[..|q| - 1]) && |s| <= k && LiesAt(t, fold, k, path)
    ensures Covers(fold, q, path)
    decreases |path|
  {
    hide WellFormed, Rank, Acyclic;
    var i := CopyFrom(s, u, k);
    assert u[i].used;
    if i == 0 {
      LiesOn(s, t, fold, p, q[..|q| - 1]);
      LiesOnce(t, fold, p, path[..|path| - 1], q[..|q| - 1]);
      assert fold(q[|q| - 1]) == fold(path[|path| - 1]);
    } else {
      assert |s| <= t[k].parent && path != [] && LiesAt(t, fold, t[k].parent, path[..|path| - 1]);
      CopiesLieUnder(s, u, t, fold, p, q, t[k].parent, path[..|path| - 1]);
      CoversBelow(fold, q, path);
    }
  }

  lemma {:induction false} GrewUnder(s: Arena, u: Arena, t: Arena, fold: Fold, p: nat, q: seq<Name>)
    requires q != [] && Grew(s, u, t, p, q[|q| - 1]) && LiesAt(s, fold, p, q[..|q| - 1])
    ensures EditsUnder(s, t, fold, q)
  {
    hide WellFormed, Rank, HoldsCopies;
    forall k: nat, path: seq<Name> | |s| <= k && LiesAt(t, fold, k, path) ensures Covers(fold, q, path) {
      CopiesLieUnder(s, u, t, fold, p, q, k, path);
    }
  }

  /** What lies in the scan lies in the tree, below the place it was grafted at. */
  lemma {:induction false} ScanIsThere(s: Arena, u: Arena, t: Arena, fold: Fold, p: nat, q: seq<Name>, i: nat, rest: seq<Name>)
    requires q != [] && Grew(s, u, t, p, q[|q| - 1]) && LiesAt(s, fold, p, q[..|q| - 1]) && LiesAt(u, fold, i, rest)
    ensures LiesAt(t, fold, Image(s, u, i), q + rest) && Copied(u[i], t[Image(s, u, i)], i == 0)
    decreases |rest|
  {
    hide WellFormed, Rank, Acyclic;
    assert u[i].used;
    if rest == [] {
      LiesOn(s, t, fold, p, q[..|q| - 1]);
      RootImage(s, u, p);
      assert q + rest == q;
    } else {
      ScanIsThere(s, u, t, fold, p, q, u[i].parent, rest[..|rest| - 1]);
      assert (q + rest)[..|q + rest| - 1] == q + rest[..|rest| - 1];
      RootImage(s, u, p);
    }
  }

  lemma RootImage(s: Arena, u: Arena, p: nat)
    requires IsDir(s, p)
    ensures |s| > 0 && forall i: nat :: i <= |u| ==> Image(s, u, i) != 0
  {
  }

  /** And nothing else among the new nodes. */
  lemma {:induction false} OnlyScanIsThere(s: Arena, u: Arena, t: Arena, fold: Fold, p: nat, q: seq<Name>, k: nat, rest: seq<Name>) returns (i: nat)
    requires q != [] && Grew(s, u, t, p, q[|q| - 1]) && LiesAt(s, fold, p, q[..|q| - 1]) && |s| <= k && LiesAt(t, fold, k, q + rest)
    ensures LiesAt(u, fold, i, rest) && k == Image(s, u, i) && Copied(u[i], t[k], i == 0)
    decreases |rest|
  {
    hide Rank, WellFormed;
    i := CopyFrom(s, u, k);
    assert u[i].used;
    var path := q + rest;
    if i == 0 {
      LiesOn(s, t, fold, p, q[..|q| - 1]);
      LiesOnce(t, fold, p, path[..|path| - 1], q[..|q| - 1]);
      assert rest == [];
    } else {
      CopiesLieUnder(s, u, t, fold, p, q, t[k].parent, path[..|path| - 1]);
      assert rest != [];
      assert path[..|path| - 1] == q + rest[..|rest| - 1];
      var above := OnlyScanIsThere(s, u, t, fold, p, q, t[k].parent, rest[..|rest| - 1]);
      SameImage(s, u, above, u[i].parent);
    }
  }

  lemma SameImage(s: Arena, u: Arena, i: nat, j: nat)
    requires Valid(u, i) && Valid(u, j) && Image(s, u, i) == Image(s, u, j)
    ensures i == j
  {
    if i < j { RankMonotone(u, i, j); } else if j < i { RankMonotone(u, j, i); }
  }

  lemma {:induction false} GrewApart(s: Arena, u: Arena, t: Arena, fold: Fold, p: nat, name: Name)
    requires Grew(s, u, t, p, name) && FoldApart(s, fold) && FoldApart(u, fold) && Vacant(s, fold, p, name)
    ensures FoldApart(t, fold)
  {
    hide Rank, WellFormed;
    forall a: nat, b: nat {:trigger t[a], t[b]} | 0 < a < |t| && 0 < b < |t| && t[a].used && t[b].used && t[a].parent == t[b].parent && fold(t[a].name) == fold(t[b].name) ensures a == b {
      PairApart(s, u, t, fold, p, name, a, b);
    }
  }

  lemma {:induction false} OldIsNotNew(s: Arena, u: Arena, t: Arena, fold: Fold, p: nat, name: Name, a: nat, b: nat)
    requires Grew(s, u, t, p, name) && Vacant(s, fold, p, name) && 0 < a < |s| <= b < |t| && t[a].used && t[b].used
    ensures t[a].parent == t[b].parent ==> fold(t[a].name) != fold(t[b].name)
  {
    hide Rank;
    var j := CopyFrom(s, u, b);
    assert u[j].used;
  }

  lemma {:induction false} PairApart(s: Arena, u: Arena, t: Arena, fold: Fold, p: nat, name: Name, a: nat, b: nat)
    requires Grew(s, u, t, p, name) && FoldApart(s, fold) && FoldApart(u, fold) && Vacant(s, fold, p, name)
    requires 0 < a < |t| && 0 < b < |t| && t[a].used && t[b].used && t[a].parent == t[b].parent && fold(t[a].name) == fold(t[b].name)
    ensures a == b
  {
    hide Rank;
    if a < |s| && b < |s| {
    } else if a < |s| {
      OldIsNotNew(s, u, t, fold, p, name, a, b);
    } else if b < |s| {
      OldIsNotNew(s, u, t, fold, p, name, b, a);
    } else {
      var i := CopyFrom(s, u, a);
      var j := CopyFrom(s, u, b);
      assert u[i].used && u[j].used;
      if i != 0 && j != 0 { SameImage(s, u, u[i].parent, u[j].parent); }
    }
  }

  // -- Rows -----------------------------------------------------------------------------------------

  /** Deaths leave rows fitting. */
  lemma {:induction false} RowsOutlive(s: Arena, t: Arena, rows: Rows)
    requires RowsFit(s, rows) && |t| == |s| && forall k :: 0 <= k < |s| ==> t[k].parent == s[k].parent && t[k].isDir == s[k].isDir && (t[k].used ==> s[k].used)
    ensures RowsFit(t, rows)
  {
    forall i: nat, p: nat {:trigger ChildOf(Edges(t), i, p)} | ChildOf(Edges(t), i, p) ensures i in rows[p] { assert ChildOf(Edges(s), i, p); }
  }

  lemma {:induction false} LinkedFits(t: Arena, rows: Rows, from: nat, n: nat)
    requires RowsFitTo(t, rows, from) && from <= n <= |t|
    ensures RowsFitTo(t, RowsLinked(t, rows, from, n), n)
  {
    hide RowsFitTo;
    FitLength(t, rows, from);
    if n > from {
      LinkedFits(t, rows, from, n - 1);
      LinkRow(t, RowsLinked(t, rows, from, n - 1), n - 1);
    }
  }

  lemma FitLength(t: Arena, rows: Rows, n: nat)
    requires RowsFitTo(t, rows, n)
    ensures |rows| == |t|
  {
  }

  /** Rows fit once the appended nodes are linked. */
  lemma {:induction false} GrownRowsFit(s: Arena, j: Arena, t: Arena, rows: Rows)
    requires RowsFit(s, rows) && s <= j && Extends(Edges(s), Edges(j)) && SameLinks(j, t)
    ensures RowsFit(t, LinkedOn(t, rows))
  {
    hide RowsFit, Extends;
    RowsCount(s, rows);
    var padded := rows + seq(|j| - |rows|, i => []);
    RowsExtend(s, j, rows, padded);
    LinkedFits(j, padded, |s|, |j|);
    RowsFitAll(j, RowsLinked(j, padded, |s|, |j|), |j|);
    LinkedBeforeWalk(j, t, rows);
    if |j| == |s| { NothingAdded(j, rows); }
    LinksKeepRows(j, t, LinkedOn(j, rows));
  }

  lemma RowsCount(s: Arena, rows: Rows)
    requires RowsFit(s, rows)
    ensures |rows| == |s|
  {
  }
}
