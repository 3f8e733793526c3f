/** What a refreshed tree holds at each path, in terms of the last change that concerned it. */
module RefreshedContents {
  import opened Words
  import opened Forest
  import opened Slots
  import opened Ancestors
  import opened Worklist
  import opened Edits
  import opened Grafting
  import opened ChildRows
  import opened Coverage
  import opened Validation
  import opened SizeTrees
  import opened SpillTrees
  import opened Replay
  import opened Refresh
  import opened Contents

  ghost predicate Sound(x: State)
  {
    Exact(x.slots) && RowsFit(x.slots, x.rows)
  }

  /** Dead nodes apart, t is s: what one removal leaves. */
  ghost predicate Survives(s: Arena, t: Arena)
  {
    |t| == |s| && forall k: nat {:trigger t[k]} :: k < |s| && t[k].used ==> s[k].used && t[k].name == s[k].name && t[k].parent == s[k].parent
  }

  /** Nothing lies at or below the path. */
  ghost predicate Bare(s: Arena, fold: Fold, q: seq<Name>)
  {
    forall k: nat, p: seq<Name> :: Covers(fold, q, p) ==> !LiesAt(s, fold, k, p)
  }

  // -- One edit ----------------------------------------------------------------------------------

  lemma {:induction false} ClearedEdit(x: State, fold: Fold, q: seq<Name>)
    requires Sound(x) && q != []
    ensures var t := Cleared(x.slots, x.rows, fold, q);
      && Step(x.slots, t, 0, 0) && Survives(x.slots, t) && RowsFit(t, x.rows) && LinkedOn(t, x.rows) == x.rows
      && (forall p :: !Covers(fold, q, p) ==> LeavesAt(x.slots, t, fold, p))
      && (FoldApart(x.slots, fold) ==> FoldApart(t, fold) && Bare(t, fold, q))
  {
    hide RowsFit, Removed, Exact, WellFormed, LinkedOn, FoldApart, AtOrBelow, Edges;
    RowsCount(x.slots, x.rows);
    var s, t := x.slots, Cleared(x.slots, x.rows, fold, q);
    ExactIsTree(s);
    StayStep(s, 0, 0);
    NothingLinkedOn(t, x.rows);
    forall p ensures LeavesAt(s, s, fold, p) { LeavesSame(s, fold, p); }
    var found := Resolve(s, x.rows, fold, q);
    if found.Some? {
      FoundLies(s, x.rows, fold, q);
      FoundUnderParent(s, x.rows, fold, q);
      RemoveStep(s, found.value);
      RemovedUnder(s, fold, found.value, q);
      RemovedRows(s, x.rows, found.value);
      DeadItself(s, found.value);
      forall p | !Covers(fold, q, p) ensures LeavesAt(s, t, fold, p) { LeavesOthers(s, t, fold, q, p); }
      if FoldApart(s, fold) {
        RemovedApart(s, t, fold);
        forall k: nat, p: seq<Name> | Covers(fold, q, p) ensures !LiesAt(t, fold, k, p) { NothingLeft(s, t, fold, found.value, q, k, p); }
      }
    } else if FoldApart(s, fold) {
      forall k: nat, p: seq<Name> | Covers(fold, q, p) ensures !LiesAt(s, fold, k, p) { UnfoundIsBare(s, x.rows, fold, q, k, p); }
    }
  }

  lemma ExactIsTree(s: Arena)
    requires Exact(s)
    ensures WellFormed(s) && |s| > 0 && IsDir(s, 0)
  {
  }

  lemma DeadItself(s: Arena, i: nat)
    requires i < |s|
    ensures AtOrBelow(Edges(s), i, i)
  {
  }

  lemma {:induction false} RemovedRows(s: Arena, rows: Rows, i: nat)
    requires Exact(s) && RowsFit(s, rows) && Valid(s, i) && i != 0
    ensures RowsFit(Removed(s, i), rows)
  {
    hide Removed, ExactTotals, Shallow, WellFormed, RowsFit;
    RemoveKeepsExact(s, i);
    RowsOutlive(s, Removed(s, i), rows);
  }

  /** Where names fold apart, what the lookup misses is not there. */
  lemma {:induction false} UnfoundIsBare(s: Arena, rows: Rows, fold: Fold, q: seq<Name>, k: nat, p: seq<Name>)
    requires WellFormed(s) && RowsFit(s, rows) && FoldApart(s, fold) && Resolve(s, rows, fold, q).None? && Covers(fold, q, p)
    ensures !LiesAt(s, fold, k, p)
    decreases |p|
  {
    hide WellFormed, RowsFit, FoldApart;
    if LiesAt(s, fold, k, p) {
      if |p| == |q| {
        LiesFolded(s, fold, k, p, q);
        LyingIsFound(s, rows, fold, k, q);
      } else {
        CoversBelow(fold, q, p);
        UnfoundIsBare(s, rows, fold, q, s[k].parent, p[..|p| - 1]);
      }
    }
  }

  /** The directory a change writes into is known. */
  ghost predicate KnownDir(x: State, fold: Fold, q: seq<Name>)
  {
    && |x.rows| == |x.slots| && q != []
    && var p := Resolve(x.slots, x.rows, fold, q[..|q| - 1]);
    p.Some? && IsDir(x.slots, p.value)
  }

  lemma NotAbove(fold: Fold, q: seq<Name>)
    requires q != []
    ensures !Covers(fold, q, q[..|q| - 1])
  {
  }

  /** The file a path names, resized where it stands. */
  lemma {:induction false} SizedEdit(x: State, fold: Fold, i: nat, q: seq<Name>, size: U64, mtime: U64)
    requires Sound(x) && q != [] && Resolve(x.slots, x.rows, fold, q) == Some(i) && IsFile(x.slots, i) && x.slots[i].name == q[|q| - 1]
    requires BytesBelow(x.slots, 0) + size <= MAX_U64
    ensures var t := WithSize(x.slots, i, size, mtime);
      && RowsFit(t, LinkedOn(t, x.rows)) && (forall p :: !Covers(fold, q, p) ==> LeavesAt(x.slots, t, fold, p))
      && (FoldApart(x.slots, fold) ==> FoldApart(t, fold)) && FileAt(t, fold, q, size, mtime)
  {
    hide WithSize, Exact, RowsFit, Resolve, WellFormed;
    var s, t := x.slots, WithSize(x.slots, i, size, mtime);
    ExactIsTree(s);
    RowsCount(s, x.rows);
    FoundLies(s, x.rows, fold, q);
    FoundUnderParent(s, x.rows, fold, q);
    SizedUnder(s, fold, i, size, mtime, q);
    SizedSlots(s, i, size, mtime);
    assert SameLinks(s, t);
    LinksKeepRows(s, t, x.rows);
    NothingLinkedOn(t, x.rows);
    forall p | !Covers(fold, q, p) ensures LeavesAt(s, t, fold, p) { LeavesOthers(s, t, fold, q, p); }
  }

  /** A new file where nothing stands any more. */
  lemma {:induction false} LeafEdit(s: Arena, rows: Rows, fold: Fold, leaf: Slot, q: seq<Name>)
    requires Exact(s) && RowsFit(s, rows) && q != [] && LiesAt(s, fold, leaf.parent, q[..|q| - 1]) && leaf.name == q[|q| - 1]
    requires leaf.used && !leaf.isDir && IsDir(s, leaf.parent) && Up(Edges(s), leaf.parent, WALK_LIMIT - 1).None?
    ensures var t := WithLeaf(s, leaf);
      && RowsFit(t, LinkedOn(t, rows)) && (forall p :: !Covers(fold, q, p) ==> LeavesAt(s, t, fold, p)) && FileAt(t, fold, q, leaf.size, leaf.mtime)
      && (FoldApart(s, fold) && Vacant(s, fold, leaf.parent, leaf.name) ==> FoldApart(t, fold))
  {
    hide WithLeaf, Exact, RowsFit, WellFormed, Edges, Vacant, FoldApart;
    var j, t := s + [leaf], WithLeaf(s, leaf);
    ExactIsTree(s);
    LeafUnder(s, fold, leaf, q);
    LeafSlots(s, leaf);
    LeafGrows(s, leaf);
    GrownRowsFit(s, j, t, rows);
    forall p | !Covers(fold, q, p) ensures LeavesAt(s, t, fold, p) { LeavesOthers(s, t, fold, q, p); }
    if FoldApart(s, fold) && Vacant(s, fold, leaf.parent, leaf.name) { LeafApart(s, t, fold, leaf); }
  }

  lemma LeafGrows(s: Arena, leaf: Slot)
    requires WellFormed(s) && leaf.used && !leaf.isDir && IsDir(s, leaf.parent)
    ensures Extends(Edges(s), Edges(s + [leaf])) && SameLinks(s + [leaf], WithLeaf(s, leaf))
  {
    hide WellFormed;
    LeafExtends(s, leaf);
    TouchKeepsAllLinks(s + [leaf], Chain(s + [leaf], leaf.parent), AddTotals(leaf.size, 1));
  }

  lemma {:induction false} WroteEdit(x: State, fold: Fold, q: seq<Name>, size: U64, mtime: U64)
    requires Sound(x) && 1 <= |q| < WALK_LIMIT && BytesBelow(x.slots, 0) + size <= MAX_U64 && |x.slots| + 1 <= MAX_U32
    ensures |x.rows| == |x.slots|
    ensures var t := Wrote(x.slots, x.rows, fold, q, size, mtime);
      && Step(x.slots, t, size, 1) && RowsFit(t, LinkedOn(t, x.rows)) && (forall p :: !Covers(fold, q, p) ==> LeavesAt(x.slots, t, fold, p))
      && (FoldApart(x.slots, fold) ==> FoldApart(t, fold)) && (if KnownDir(x, fold, q) && q[|q| - 1] != DOT then FileAt(t, fold, q, size, mtime) else t == x.slots)
  {
    hide WithLeaf, WithSize, Exact, RowsFit, WellFormed, Edges, Step, LeavesAt, FoldApart, LinkedOn, Resolve, FileAt, Removed, Up, Covers;
    var s, n := x.slots, |q| - 1;
    ExactIsTree(s);
    RowsCount(s, x.rows);
    StayStep(s, size, 1);
    NothingLinkedOn(s, x.rows);
    forall p ensures LeavesAt(s, s, fold, p) { LeavesSame(s, fold, p); }
    var target := UpsertTarget(s, x.rows, fold, q);
    if target.Some? {
      var p, found := target.value, Resolve(s, x.rows, fold, q);
      DirIsSlot(s, p);
      ResolvedDepth(s, x.rows, fold, q[..n]);
      ChainEnds(Edges(s), p, |q|, WALK_LIMIT - 1);
      if found.Some? { FoundUnderParent(s, x.rows, fold, q); }
      UpsertStep(s, p, found, q[n], size, mtime);
      if found.Some? && !s[found.value].isDir && s[found.value].name == q[n] {
        SizedEdit(x, fold, found.value, q, size, mtime);
      } else {
        LeafAfter(x, fold, q, p, Slot(p, q[n], false, size, true, mtime, 0));
      }
    }
  }

  lemma {:induction false} LeafAfter(x: State, fold: Fold, q: seq<Name>, p: nat, leaf: Slot)
    requires Sound(x) && q != [] && |x.rows| == |x.slots| && Resolve(x.slots, x.rows, fold, q[..|q| - 1]) == Some(p) && IsDir(x.slots, p)
    requires leaf.parent == p && leaf.name == q[|q| - 1] && leaf.used && !leaf.isDir && Up(Edges(x.slots), p, WALK_LIMIT - 1).None?
    ensures var t := WithLeaf(Cleared(x.slots, x.rows, fold, q), leaf);
      && RowsFit(t, LinkedOn(t, x.rows)) && (forall p :: !Covers(fold, q, p) ==> LeavesAt(x.slots, t, fold, p))
      && FileAt(t, fold, q, leaf.size, leaf.mtime) && (FoldApart(x.slots, fold) ==> FoldApart(t, fold))
  {
    hide WithLeaf, RowsFit, WellFormed, Edges, LeavesAt, FoldApart, LinkedOn, FileAt, Removed, Up, Covers;
    var s, s1 := x.slots, Cleared(x.slots, x.rows, fold, q);
    var n, t := |q| - 1, WithLeaf(s1, leaf);
    ExactIsTree(s);
    ClearedEdit(x, fold, q);
    StepFacts(s, s1);
    FoundLies(s, x.rows, fold, q[..n]);
    NotAbove(fold, q);
    ParentOutlives(x, fold, q, p);
    LeafEdit(s1, x.rows, fold, leaf, q);
    forall p | !Covers(fold, q, p) ensures LeavesAt(s, t, fold, p) { LeavesCompose(s, s1, t, fold, p); }
    if FoldApart(s, fold) { VacantAfter(x, fold, q, p); }
  }

  /** Where a path was cleared its directory still lies, as deep as it did. */
  lemma {:induction false} ParentOutlives(x: State, fold: Fold, q: seq<Name>, p: nat)
    requires Sound(x) && q != [] && |x.rows| == |x.slots| && Resolve(x.slots, x.rows, fold, q[..|q| - 1]) == Some(p) && IsDir(x.slots, p)
    ensures var t := Cleared(x.slots, x.rows, fold, q);
      |t| == |x.slots| && IsDir(t, p) && LiesAt(t, fold, p, q[..|q| - 1]) && forall k: nat :: Up(Edges(t), p, k) == Up(Edges(x.slots), p, k)
  {
    hide WellFormed, RowsFit, Removed, Edges, Up, Resolve;
    var s := x.slots;
    ExactIsTree(s);
    FoundLies(s, x.rows, fold, q[..|q| - 1]);
    NotAbove(fold, q);
    ClearedEdit(x, fold, q);
    var found := Resolve(s, x.rows, fold, q);
    if found.Some? {
      FoundUnderParent(s, x.rows, fold, q);
      RemovedWellFormed(s, found.value);
      forall k: nat ensures Up(Edges(Removed(s, found.value)), p, k) == Up(Edges(s), p, k) { RemovedDepth(s, found.value, p, k); }
    }
  }

  lemma {:induction false} VacantAfter(x: State, fold: Fold, q: seq<Name>, p: nat)
    requires Sound(x) && q != [] && |x.rows| == |x.slots| && Resolve(x.slots, x.rows, fold, q[..|q| - 1]) == Some(p) && IsDir(x.slots, p) && FoldApart(x.slots, fold)
    ensures Vacant(Cleared(x.slots, x.rows, fold, q), fold, p, q[|q| - 1])
  {
    hide WellFormed, RowsFit, Removed, Edges, FoldApart, Vacant, Lookup;
    var s := x.slots;
    ExactIsTree(s);
    ClearedEdit(x, fold, q);
    var found := Resolve(s, x.rows, fold, q);
    assert found == Lookup(s, x.rows, fold, p, q[|q| - 1]);
    if found.Some? { ClearedIsDead(s, found.value); }
    ClearedIsVacant(s, x.rows, fold, p, q[|q| - 1], Cleared(s, x.rows, fold, q));
  }

  lemma {:induction false} ClearedIsDead(s: Arena, i: nat)
    requires Exact(s) && Valid(s, i)
    ensures |Removed(s, i)| == |s| && !Removed(s, i)[i].used
  {
    DeadItself(s, i);
    hide Exact, AtOrBelow, Edges;
    var t := Buried(s, i);
    if i != 0 { WalkLength(t, Chain(t, s[i].parent), SubTotals(s[i].size, if s[i].isDir then s[i].files else 1)); }
  }

  lemma WalkLength(t: Arena, chain: seq<nat>, fn: Slot -> Slot)
    requires OnlyTotals(fn)
    ensures |Touch(t, chain, fn)| == |t| && forall k :: 0 <= k < |t| ==> Touch(t, chain, fn)[k].used == t[k].used
  {
    forall k | 0 <= k < |t| ensures Touch(t, chain, fn)[k].used == t[k].used { KeepsIdentity(fn, t[k]); }
  }

  // -- A rescan --------------------------------------------------------------------------------------

  /** Node k of t stands for node i of the scan u. */
  ghost predicate StandsIn(u: Arena, i: nat, t: Arena, k: nat, root: bool)
  {
    i < |u| && k < |t| && Copied(u[i], t[k], root)
  }

  /** What lies at this place in the scan lies there below q, with the same name, kind, size and time. */
  ghost predicate ScanHeld(t: Arena, u: Arena, fold: Fold, q: seq<Name>, rest: seq<Name>)
  {
    forall i: nat :: LiesAt(u, fold, i, rest) ==> exists k: nat :: LiesAt(t, fold, k, q + rest) && StandsIn(u, i, t, k, rest == [])
  }

  /** And nothing else lies there. */
  ghost predicate ScanOnly(t: Arena, u: Arena, fold: Fold, q: seq<Name>, rest: seq<Name>)
  {
    forall k: nat :: LiesAt(t, fold, k, q + rest) ==> exists i: nat :: LiesAt(u, fold, i, rest) && StandsIn(u, i, t, k, rest == [])
  }

  ghost predicate HoldsScanAt(t: Arena, u: Arena, fold: Fold, q: seq<Name>, rest: seq<Name>)
  {
    ScanHeld(t, u, fold, q, rest) && ScanOnly(t, u, fold, q, rest)
  }

  lemma {:induction false} StandsOn(u: Arena, i: nat, s: Arena, t: Arena, fold: Fold, k: nat, p: seq<Name>, root: bool)
    requires LiesAt(s, fold, k, p) && LeavesAt(s, t, fold, p)
    ensures LiesAt(t, fold, k, p) && (StandsIn(u, i, s, k, root) ==> StandsIn(u, i, t, k, root))
  {
  }

  lemma {:induction false} HeldStays(s: Arena, t: Arena, u: Arena, fold: Fold, q: seq<Name>, rest: seq<Name>)
    requires ScanHeld(s, u, fold, q, rest) && LeavesAt(s, t, fold, q + rest)
    ensures ScanHeld(t, u, fold, q, rest)
  {
    hide LiesAt, StandsIn, Kept;
    forall i: nat | LiesAt(u, fold, i, rest) ensures exists k: nat :: LiesAt(t, fold, k, q + rest) && StandsIn(u, i, t, k, rest == []) {
      var k: nat :| LiesAt(s, fold, k, q + rest) && StandsIn(u, i, s, k, rest == []);
      StandsOn(u, i, s, t, fold, k, q + rest, rest == []);
    }
  }

  lemma {:induction false} OnlyStays(s: Arena, t: Arena, u: Arena, fold: Fold, q: seq<Name>, rest: seq<Name>)
    requires ScanOnly(s, u, fold, q, rest) && LeavesAt(s, t, fold, q + rest)
    ensures ScanOnly(t, u, fold, q, rest)
  {
    hide LiesAt, StandsIn, Kept;
    forall k: nat | LiesAt(t, fold, k, q + rest) ensures exists i: nat :: LiesAt(u, fold, i, rest) && StandsIn(u, i, t, k, rest == []) {
      assert LiesAt(s, fold, k, q + rest);
      var i: nat :| LiesAt(u, fold, i, rest) && StandsIn(u, i, s, k, rest == []);
      StandsOn(u, i, s, t, fold, k, q + rest, rest == []);
    }
  }

  lemma {:induction false} ScanStays(s: Arena, t: Arena, u: Arena, fold: Fold, q: seq<Name>, rest: seq<Name>)
    requires HoldsScanAt(s, u, fold, q, rest) && LeavesAt(s, t, fold, q + rest)
    ensures HoldsScanAt(t, u, fold, q, rest)
  {
    hide ScanHeld, ScanOnly, LeavesAt;
    HeldStays(s, t, u, fold, q, rest);
    OnlyStays(s, t, u, fold, q, rest);
  }

  lemma {:induction false} GraftEdit(x: State, fold: Fold, q: seq<Name>, p: U32, u: Arena)
    requires Sound(x) && 1 <= |q| < WALK_LIMIT && |x.rows| == |x.slots| && Resolve(x.slots, x.rows, fold, q[..|q| - 1]) == Some(p as nat) && IsDir(x.slots, p)
    requires Exact(u) && NoDeeperThan(u, WALK_LIMIT - |q|) && 0 < |u| && |x.slots| + |u| <= MAX_U32
    ensures |Cleared(x.slots, x.rows, fold, q)| == |x.slots|
    ensures var t := Grafted(Cleared(x.slots, x.rows, fold, q), u, p, q[|q| - 1]);
      && RowsFit(t, LinkedOn(t, x.rows)) && (forall p :: !Covers(fold, q, p) ==> LeavesAt(x.slots, t, fold, p))
      && (FoldApart(x.slots, fold) && FoldApart(u, fold) ==> FoldApart(t, fold))
      && (FoldApart(x.slots, fold) ==> forall rest: seq<Name> :: HoldsScanAt(t, u, fold, q, rest))
  {
    hide RowsFit, WellFormed, Edges, LeavesAt, FoldApart, LinkedOn, Removed, Up, Covers, Grafted, Grew, HoldsScanAt, Vacant, Exact;
    var s, n := x.slots, |q| - 1;
    ClearedEdit(x, fold, q);
    var s1 := Cleared(s, x.rows, fold, q);
    var t := Grafted(s1, u, p, q[n]);
    StepFacts(s, s1);
    ParentOutlives(x, fold, q, p);
    KnownDepth(x, fold, q, p);
    GraftGrows(s1, u, p, q[n], |q|);
    GrownRowsFit(s1, Joined(s1, u, p, q[n]), t, x.rows);
    GrewUnder(s1, u, t, fold, p, q);
    forall p | !Covers(fold, q, p) ensures LeavesAt(s, t, fold, p) {
      LeavesOthers(s1, t, fold, q, p);
      LeavesCompose(s, s1, t, fold, p);
    }
    if FoldApart(s, fold) {
      VacantAfter(x, fold, q, p);
      if FoldApart(u, fold) { GrewApart(s1, u, t, fold, p, q[n]); }
      forall rest: seq<Name> ensures HoldsScanAt(t, u, fold, q, rest) { GrewHolds(s1, u, t, fold, p, q, rest); }
    }
  }

  lemma {:induction false} KnownDepth(x: State, fold: Fold, q: seq<Name>, p: nat)
    requires Sound(x) && 1 <= |q| && |x.rows| == |x.slots| && Resolve(x.slots, x.rows, fold, q[..|q| - 1]) == Some(p)
    ensures Up(Edges(x.slots), p, |q|).None?
  {
    hide RowsFit, Resolve;
    ExactIsTree(x.slots);
    ResolvedDepth(x.slots, x.rows, fold, q[..|q| - 1]);
  }

  lemma {:induction false} GraftGrows(s: Arena, u: Arena, p: U32, name: Name, depth: nat)
    requires Exact(s) && Exact(u) && IsDir(s, p) && 0 < |u| && |s| + |u| <= MAX_U32 && 1 <= depth < WALK_LIMIT
    requires NoDeeperThan(u, WALK_LIMIT - depth) && Up(Edges(s), p, depth).None?
    ensures var j, t := Joined(s, u, p, name), Grafted(s, u, p, name);
      WellFormed(s) && WellFormed(t) && Grew(s, u, t, p, name) && s <= j && Extends(Edges(s), Edges(j)) && SameLinks(j, t)
  {
    hide Joined, Grafted, Rank, HoldsCopies, Acyclic, ExactTotals, Shallow, Up, Edges;
    GraftSlots(s, u, p, name, WALK_LIMIT - depth);
    JoinedEdges(s, u, p, name);
    JoinedKeepsOld(s, u, p, name);
  }

  lemma {:induction false} GrewHolds(s: Arena, u: Arena, t: Arena, fold: Fold, p: nat, q: seq<Name>, rest: seq<Name>)
    requires q != [] && WellFormed(t) && Grew(s, u, t, p, q[|q| - 1]) && LiesAt(s, fold, p, q[..|q| - 1]) && Bare(s, fold, q)
    ensures HoldsScanAt(t, u, fold, q, rest)
  {
    hide WellFormed, Grew, Bare, Rank;
    forall i: nat | LiesAt(u, fold, i, rest) ensures exists k: nat :: LiesAt(t, fold, k, q + rest) && StandsIn(u, i, t, k, rest == []) {
      ScanIsThere(s, u, t, fold, p, q, i, rest);
    }
    forall k: nat | LiesAt(t, fold, k, q + rest) ensures exists i: nat :: LiesAt(u, fold, i, rest) && StandsIn(u, i, t, k, rest == []) {
      BareStays(s, u, t, fold, p, q, k, rest);
      var i := OnlyScanIsThere(s, u, t, fold, p, q, k, rest);
    }
  }

  lemma {:induction false} BareStays(s: Arena, u: Arena, t: Arena, fold: Fold, p: nat, q: seq<Name>, k: nat, rest: seq<Name>)
    requires q != [] && Grew(s, u, t, p, q[|q| - 1]) && Bare(s, fold, q) && LiesAt(t, fold, k, q + rest)
    ensures |s| <= k
  {
    hide Rank, WellFormed;
    assert Covers(fold, q, q + rest);
    if k < |s| { WasThere(s, t, fold, k, q + rest); }
  }

  // -- One change ------------------------------------------------------------------------------------

  /** The change may alter what lies at this path. */
  ghost predicate Concerns(fold: Fold, c: Change<Scan>, p: seq<Name>)
  {
    Covers(fold, c.path, p) && !(c.Rescanned? && c.found.Unreadable?)
  }

  /** The tree a rescan found, if it found one. */
  ghost function Seen(c: Change<Scan>): (u: Option<Arena>)
    requires Legal(c)
  {
    if c.Rescanned? && (c.found.Whole? || c.found.Spilled?) then Some(Brought(c.path[|c.path| - 1], c.found).slots) else None
  }

  /** A sound state afterwards, everything the change does not concern as it was. */
  ghost predicate Follows(fold: Fold, x: State, c: Change<Scan>, y: State)
    requires Legal(c)
  {
    && Sound(y) && |y.rows| == |y.slots| && Step(x.slots, y.slots, NewBytes(c), NewNodes(c))
    && (forall p :: !Concerns(fold, c, p) ==> LeavesAt(x.slots, y.slots, fold, p))
    && (FoldApart(x.slots, fold) && (Seen(c).Some? ==> FoldApart(Seen(c).value, fold)) ==> FoldApart(y.slots, fold))
  }

  lemma {:induction false} NothingFollows(fold: Fold, x: State, c: Change<Scan>, y: State)
    requires Sound(x) && |x.rows| == |x.slots| && Legal(c) && y.slots == x.slots && y.rows == x.rows
    ensures Follows(fold, x, c, y)
  {
    hide RowsFit, Exact, FoldApart, Step, LeavesAt;
    StayStep(x.slots, NewBytes(c), NewNodes(c));
    forall p ensures LeavesAt(x.slots, x.slots, fold, p) { LeavesSame(x.slots, fold, p); }
  }

  lemma {:induction false} ClearedFollows(fold: Fold, x: State, c: Change<Scan>, y: State)
    requires Sound(x) && |x.rows| == |x.slots| && Legal(c) && Seen(c).None? && !c.Written? && !(c.Rescanned? && c.found.Unreadable?)
    requires y.slots == Cleared(x.slots, x.rows, fold, c.path) && y.rows == LinkedOn(y.slots, x.rows)
    ensures Follows(fold, x, c, y) && (FoldApart(x.slots, fold) ==> Bare(y.slots, fold, c.path))
  {
    hide RowsFit, Exact, FoldApart, LeavesAt, Cleared, LinkedOn, Bare, Covers;
    ClearedEdit(x, fold, c.path);
  }

  lemma {:induction false} WrittenFollows(host: Host, fold: Fold, x: State, c: Change<Scan>, y: State)
    requires Sound(x) && |x.rows| == |x.slots| && Legal(c) && c.Written? && Fits(host, x.slots, c)
    requires y.slots == Wrote(x.slots, x.rows, fold, c.path, c.size, c.mtime) && y.rows == LinkedOn(y.slots, x.rows)
    ensures Follows(fold, x, c, y)
    ensures if KnownDir(x, fold, c.path) && c.path[|c.path| - 1] != DOT then FileAt(y.slots, fold, c.path, c.size, c.mtime) else y.slots == x.slots
  {
    hide RowsFit, Exact, FoldApart, LeavesAt, Wrote, LinkedOn, FileAt, Step, Covers, BytesBelow;
    WroteEdit(x, fold, c.path, c.size, c.mtime);
    StepIsExact(x.slots, y.slots, c.size, 1);
    RowsCount(y.slots, y.rows);
  }

  lemma {:induction false} GraftFollows(host: Host, fold: Fold, x: State, c: Change<Scan>, p: U32, u: Arena, y: State)
    requires Sound(x) && |x.rows| == |x.slots| && Legal(c) && Fits(host, x.slots, c) && Seen(c) == Some(u)
    requires Resolve(x.slots, x.rows, fold, c.path[..|c.path| - 1]) == Some(p as nat) && IsDir(x.slots, p)
    requires c.Rescanned? && !c.found.Unreadable? && (c.found.Spilled? ==> SpillOk(host, c.found.records))
    requires |x.slots| + |u| <= MAX_U32 && |u| > 0
    requires y.slots == Grafted(Cleared(x.slots, x.rows, fold, c.path), u, p, c.path[|c.path| - 1]) && y.rows == LinkedOn(y.slots, x.rows)
    ensures Follows(fold, x, c, y)
    ensures FoldApart(x.slots, fold) ==> forall rest: seq<Name> :: HoldsScanAt(y.slots, u, fold, c.path, rest)
  {
    hide RowsFit, FoldApart, LeavesAt, LinkedOn, Step, Covers, Grafted, HoldsScanAt, Exact, NoDeeperThan, Resolve, Cleared, Fits, NewBytes, NewNodes, Seen, SpillOk;
    SeenIsExact(host, x, c);
    FirstNames(host, x.slots, c);
    GraftEdit(x, fold, c.path, p, u);
    GraftSteps(host, fold, x, c, p);
    StepIsExact(x.slots, y.slots, NewBytes(c), NewNodes(c));
    RowsCount(y.slots, y.rows);
  }

  lemma FirstNames(host: Host, s: Arena, c: Change<Scan>)
    requires Fits(host, s, c)
    ensures 1 <= |c.path| < WALK_LIMIT
  {
    hide Exact, BytesBelow, NewBytes, NewNodes;
  }

  lemma {:induction false} GraftSteps(host: Host, fold: Fold, x: State, c: Change<Scan>, p: U32)
    requires Sound(x) && |x.rows| == |x.slots| && Legal(c) && Fits(host, x.slots, c) && Seen(c).Some?
    requires Resolve(x.slots, x.rows, fold, c.path[..|c.path| - 1]) == Some(p as nat) && IsDir(x.slots, p)
    requires c.found.Spilled? ==> SpillOk(host, c.found.records)
    requires |x.slots| + |Seen(c).value| <= MAX_U32 && |Seen(c).value| > 0
    ensures Step(x.slots, Grafted(Cleared(x.slots, x.rows, fold, c.path), Seen(c).value, p, c.path[|c.path| - 1]), NewBytes(c), NewNodes(c))
  {
    hide RowsFit, FoldApart, LeavesAt, LinkedOn, Step, Covers, BytesBelow, Grafted, WellFormed, Exact, RollUp, SpillSlots, SpillOk, NoDeeperThan, Resolve, Cleared, Edges, Up, NewBytes, NewNodes;
    ClearedEdit(x, fold, c.path);
    ParentOutlives(x, fold, c.path, p);
    KnownDepth(x, fold, c.path, p);
    BroughtStep(host, x.slots, Cleared(x.slots, x.rows, fold, c.path), p, c);
  }

  lemma {:induction false} SeenIsExact(host: Host, x: State, c: Change<Scan>)
    requires Legal(c) && Fits(host, x.slots, c) && Seen(c).Some? && (c.found.Spilled? ==> SpillOk(host, c.found.records))
    ensures var u := Seen(c).value; Exact(u) && NoDeeperThan(u, WALK_LIMIT - |c.path|) && |x.slots| + |u| <= MAX_U32
  {
    hide Fits, Legal, SpillOk, Exact, NoDeeperThan, Brought;
    if c.found.Spilled? { SpilledIsExact(host, x.slots, c); } else { WholeIsExact(host, x.slots, c); }
  }

  lemma WholeIsExact(host: Host, s: Arena, c: Change<Scan>)
    requires Legal(c) && Fits(host, s, c) && c.Rescanned? && c.found.Whole?
    ensures var u := Brought(c.path[|c.path| - 1], c.found).slots; Exact(u) && NoDeeperThan(u, WALK_LIMIT - |c.path|) && |s| + |u| <= MAX_U32
  {
    hide Exact, NoDeeperThan, BytesBelow;
  }

  lemma {:induction false} SpilledIsExact(host: Host, s: Arena, c: Change<Scan>)
    requires Legal(c) && Fits(host, s, c) && c.Rescanned? && c.found.Spilled? && SpillOk(host, c.found.records)
    ensures var u := Brought(c.path[|c.path| - 1], c.found).slots; Exact(u) && NoDeeperThan(u, WALK_LIMIT - |c.path|) && |s| + |u| <= MAX_U32
  {
    hide RollUp, SpillSlots, BytesBelow, Exact, NoDeeperThan, SpillOk;
    SpillIsExact(host, c.path[|c.path| - 1], c.found.records, WALK_LIMIT - |c.path|);
  }

  lemma {:induction false} SpillIsExact(host: Host, name: Name, records: seq<Record>, h: nat)
    requires SpillOk(host, records) && h <= WALK_LIMIT && NoDeeperThan(SpillSlots(name, 0, records), h) && BytesBelow(SpillSlots(name, 0, records), 0) <= MAX_U64 && |records| < MAX_U32
    ensures var u := RollUp(SpillSlots(name, 0, records)); Exact(u) && NoDeeperThan(u, h) && |u| == |records| + 1
  {
    hide RollUp, SpillSlots, BytesBelow, Exact, NoDeeperThan, SpillOk, LiveParentFirst;
    SpillIsParentsFirst(host, name, 0, records);
    SpillCount(name, records);
    RolledIsExact(SpillSlots(name, 0, records), h);
  }

  lemma SpillCount(name: Name, records: seq<Record>)
    ensures |SpillSlots(name, 0, records)| == |records| + 1
  {
  }

  /** The change puts what it says at its path. */
  ghost predicate PutThere(fold: Fold, x: State, c: Change<Scan>, y: State)
    requires |x.rows| == |x.slots| && Legal(c)
  {
    match c
    case Written(path, size, mtime) => if KnownDir(x, fold, path) && path[|path| - 1] != DOT then FileAt(y.slots, fold, path, size, mtime) else y.slots == x.slots
    case Gone(path) => FoldApart(x.slots, fold) ==> Bare(y.slots, fold, path)
    case Rescanned(path, found) =>
      if found.Unreadable? || !KnownDir(x, fold, path) then y.slots == x.slots
      else FoldApart(x.slots, fold) ==>
        if found.Vanished? then Bare(y.slots, fold, path)
        else forall rest: seq<Name> :: HoldsScanAt(y.slots, Seen(c).value, fold, path, rest)
  }

  lemma {:induction false} AfterFollows(host: Host, fold: Fold, mount: seq<Name>, x: State, c: Change<Scan>)
    requires Sound(x) && |x.rows| == |x.slots| && Legal(c) && Fits(host, x.slots, c) && After(host, fold, mount, x, c).Some?
    ensures Follows(fold, x, c, After(host, fold, mount, x, c).value) && PutThere(fold, x, c, After(host, fold, mount, x, c).value)
  {
    hide Sound, FoldApart, LinkedOn, Covers, Resolve, Cleared, Wrote, FileAt, Bare, Follows, Fits, Replaced, KnownDir;
    var y := After(host, fold, mount, x, c).value;
    match c
    case Gone(path) => ClearedFollows(fold, x, c, y);
    case Written(path, size, mtime) => WrittenFollows(host, fold, x, c, y);
    case Rescanned(path, found) =>
      if found.Unreadable? { NothingFollows(fold, x, c, y); } else { ReplacedFollows(host, fold, mount, x, c); }
  }

  lemma {:induction false} ReplacedFollows(host: Host, fold: Fold, mount: seq<Name>, x: State, c: Change<Scan>)
    requires Sound(x) && |x.rows| == |x.slots| && Legal(c) && Fits(host, x.slots, c) && c.Rescanned? && !c.found.Unreadable?
    requires Replaced(host, fold, mount, x, c.path, c.found).Some?
    ensures var y := Replaced(host, fold, mount, x, c.path, c.found).value; Follows(fold, x, c, y) && PutThere(fold, x, c, y)
  {
    hide Sound, FoldApart, LinkedOn, Covers, Grafted, HoldsScanAt, RollUp, SpillSlots, SpillOk, Resolve, Cleared, Bare, HeadOk, NewRoot, HandedOn, Follows, Fits;
    var y := Replaced(host, fold, mount, x, c.path, c.found).value;
    if !KnownDir(x, fold, c.path) {
      NothingFollows(fold, x, c, y);
    } else if c.found.Vanished? {
      ClearedFollows(fold, x, c, y);
    } else {
      ClearedRows(x, fold, c.path);
      GraftFollows(host, fold, x, c, Resolve(x.slots, x.rows, fold, c.path[..|c.path| - 1]).value, Seen(c).value, y);
    }
  }

  lemma ClearedRows(x: State, fold: Fold, q: seq<Name>)
    requires Sound(x) && |x.rows| == |x.slots| && q != []
    ensures LinkedOn(Cleared(x.slots, x.rows, fold, q), x.rows) == x.rows
  {
    ClearedEdit(x, fold, q);
  }

  // -- Whole runs ---------------------------------------------------------------------------------------

  /** What a refresh starts from: a sound tree that the changes fit, and each change read off a directory below the mount. */
  ghost predicate Started(host: Host, x: State, changes: seq<Change<Scan>>)
  {
    |x.rows| == |x.slots| && Sound(x) && AllFit(host, x.slots, changes) && forall c :: c in changes ==> Legal(c)
  }

  /** Names fold apart in the tree and in every scan. */
  ghost predicate AllApart(fold: Fold, x: State, changes: seq<Change<Scan>>)
    requires forall c :: c in changes ==> Legal(c)
  {
    FoldApart(x.slots, fold) && forall c :: c in changes && Seen(c).Some? ==> FoldApart(Seen(c).value, fold)
  }

  /** No change from the n-th on concerns the path. */
  ghost predicate QuietFrom(fold: Fold, changes: seq<Change<Scan>>, n: nat, p: seq<Name>)
  {
    forall j :: n <= j < |changes| ==> !Concerns(fold, changes[j], p)
  }

  /** Every state of a run is sound, and what no later change concerns is at the end what it was. */
  lemma {:induction false} RunFollows(host: Host, fold: Fold, mount: seq<Name>, x: State, changes: seq<Change<Scan>>, n: nat)
    requires Started(host, x, changes) && n <= |changes| && Run(host, fold, mount, x, changes).Some?
    ensures var y := Run(host, fold, mount, x, changes[..n]);
      && y.Some? && |y.value.rows| == |y.value.slots| && Sound(y.value) && Step(x.slots, y.value.slots, AllBytes(changes[..n]), AllNodes(changes[..n]))
      && (AllApart(fold, x, changes) ==> FoldApart(y.value.slots, fold))
  {
    hide Sound, Step, FoldApart, After, Follows, Fits, Seen, Legal, AllBytes, AllNodes, PutThere, AllFit;
    if n == 0 {
      RunBegins(host, fold, mount, x, changes);
    } else {
      RunMisses(host, fold, mount, x, changes, n);
      RunFollows(host, fold, mount, x, changes, n - 1);
      RunNext(host, fold, mount, x, changes, n - 1);
      var y := Run(host, fold, mount, x, changes[..n - 1]).value;
      NextFits(host, x.slots, y.slots, changes, n - 1);
      AfterFollows(host, fold, mount, y, changes[n - 1]);
      FollowsOn(fold, x, y, changes, n - 1, Run(host, fold, mount, x, changes[..n]).value);
    }
  }

  lemma {:induction false} RunBegins(host: Host, fold: Fold, mount: seq<Name>, x: State, changes: seq<Change<Scan>>)
    requires Started(host, x, changes)
    ensures Run(host, fold, mount, x, changes[..0]) == Some(x) && Step(x.slots, x.slots, AllBytes(changes[..0]), AllNodes(changes[..0]))
  {
    hide Exact, RowsFit;
    StayStep(x.slots, 0, 0);
  }

  lemma {:induction false} RunMisses(host: Host, fold: Fold, mount: seq<Name>, x: State, changes: seq<Change<Scan>>, n: nat)
    requires |x.rows| == |x.slots| && (forall c :: c in changes ==> Legal(c)) && n <= |changes| && Run(host, fold, mount, x, changes).Some?
    ensures Run(host, fold, mount, x, changes[..n]).Some?
  {
    if Run(host, fold, mount, x, changes[..n]).None? { RunFails(host, fold, mount, x, changes, n); }
  }

  lemma {:induction false} FollowsOn(fold: Fold, x: State, y: State, changes: seq<Change<Scan>>, n: nat, z: State)
    requires n < |changes| && (forall c :: c in changes ==> Legal(c)) && Follows(fold, y, changes[n], z)
    requires Step(x.slots, y.slots, AllBytes(changes[..n]), AllNodes(changes[..n])) && (AllApart(fold, x, changes) ==> FoldApart(y.slots, fold))
    requires AllBytes(changes[..n + 1]) == AllBytes(changes[..n]) + NewBytes(changes[n]) && AllNodes(changes[..n + 1]) == AllNodes(changes[..n]) + NewNodes(changes[n])
    ensures Sound(z) && |z.rows| == |z.slots| && Step(x.slots, z.slots, AllBytes(changes[..n + 1]), AllNodes(changes[..n + 1]))
    ensures AllApart(fold, x, changes) ==> FoldApart(z.slots, fold)
  {
    hide Sound, Step, FoldApart, LeavesAt, AllBytes, AllNodes, NewBytes, NewNodes, Concerns, Seen, Legal;
    StepsCompose(x.slots, y.slots, z.slots, AllBytes(changes[..n]), AllNodes(changes[..n]), NewBytes(changes[n]), NewNodes(changes[n]));
    assert changes[n] in changes;
  }

  /** What no change from the n-th on concerns is at the end what it was before it. */
  lemma {:induction false} QuietStays(host: Host, fold: Fold, mount: seq<Name>, x: State, changes: seq<Change<Scan>>, n: nat, m: nat, p: seq<Name>)
    requires Started(host, x, changes) && n <= m <= |changes| && Run(host, fold, mount, x, changes).Some? && QuietFrom(fold, changes, n, p)
    ensures var y, z := Run(host, fold, mount, x, changes[..n]), Run(host, fold, mount, x, changes[..m]);
      y.Some? && z.Some? && LeavesAt(y.value.slots, z.value.slots, fold, p)
    decreases m
  {
    hide Sound, Step, FoldApart, After, Fits, Seen, Legal, AllBytes, AllNodes, PutThere, AllFit, LeavesAt, Concerns;
    RunMisses(host, fold, mount, x, changes, n);
    RunMisses(host, fold, mount, x, changes, m);
    if n == m {
      LeavesSame(Run(host, fold, mount, x, changes[..n]).value.slots, fold, p);
    } else {
      QuietStays(host, fold, mount, x, changes, n, m - 1, p);
      RunFollows(host, fold, mount, x, changes, m - 1);
      RunNext(host, fold, mount, x, changes, m - 1);
      var y := Run(host, fold, mount, x, changes[..m - 1]).value;
      NextFits(host, x.slots, y.slots, changes, m - 1);
      AfterFollows(host, fold, mount, y, changes[m - 1]);
      LeavesCompose(Run(host, fold, mount, x, changes[..n]).value.slots, y.slots, Run(host, fold, mount, x, changes[..m]).value.slots, fold, p);
    }
  }

  /** Where names fold apart in the tree and in every scan, they do so at every point of the run. */
  lemma {:induction false} ApartStays(host: Host, fold: Fold, mount: seq<Name>, x: State, changes: seq<Change<Scan>>, n: nat)
    requires Started(host, x, changes) && AllApart(fold, x, changes) && n <= |changes| && Run(host, fold, mount, x, changes).Some?
    ensures Run(host, fold, mount, x, changes[..n]).Some? && FoldApart(Run(host, fold, mount, x, changes[..n]).value.slots, fold)
  {
    hide Sound, Step, FoldApart, Run, AllFit, AllApart;
    RunFollows(host, fold, mount, x, changes, n);
  }

  /** The state the n-th change found, what it put in place, and the end of the run. */
  lemma {:induction false} ChangeAt(host: Host, fold: Fold, mount: seq<Name>, x: State, changes: seq<Change<Scan>>, n: nat)
    requires Started(host, x, changes) && n < |changes| && Run(host, fold, mount, x, changes).Some?
    ensures Legal(changes[n])
    ensures var y, z := Run(host, fold, mount, x, changes[..n]), Run(host, fold, mount, x, changes[..n + 1]);
      y.Some? && z.Some? && |y.value.rows| == |y.value.slots| && PutThere(fold, y.value, changes[n], z.value)
    ensures changes[..|changes|] == changes && Sound(Run(host, fold, mount, x, changes).value)
  {
    hide Sound, Step, FoldApart, After, Fits, Seen, AllBytes, AllNodes, PutThere, AllFit, Follows, AllApart;
    assert changes[..|changes|] == changes;
    RunFollows(host, fold, mount, x, changes, n);
    RunFollows(host, fold, mount, x, changes, |changes|);
    RunMisses(host, fold, mount, x, changes, n + 1);
    RunNext(host, fold, mount, x, changes, n);
    var y := Run(host, fold, mount, x, changes[..n]).value;
    NextFits(host, x.slots, y.slots, changes, n);
    AfterFollows(host, fold, mount, y, changes[n]);
  }

  /** A file written last at a path stands there at the end, of exactly that name, size and time; where names fold apart, it is what a lookup finds. */
  lemma {:induction false} LastWriteStands(host: Host, fold: Fold, mount: seq<Name>, x: State, changes: seq<Change<Scan>>, n: nat, rows: Rows)
    requires Started(host, x, changes) && n < |changes| && Run(host, fold, mount, x, changes).Some?
    requires changes[n].Written? && QuietFrom(fold, changes, n + 1, changes[n].path)
    requires var y := Run(host, fold, mount, x, changes[..n]); y.Some? && KnownDir(y.value, fold, changes[n].path)
    requires changes[n].path[|changes[n].path| - 1] != DOT
    ensures var c, last := changes[n], Run(host, fold, mount, x, changes).value.slots;
      && FileAt(last, fold, c.path, c.size, c.mtime)
      && (FoldApart(last, fold) && RowsFit(last, rows) ==>
            var k := Resolve(last, rows, fold, c.path);
            && k.Some? && IsFile(last, k.value) && last[k.value].name == c.path[|c.path| - 1] && last[k.value].size == c.size && last[k.value].mtime == c.mtime)
  {
    hide Exact, FoldApart, AllFit, Run, LeavesAt, QuietFrom, LiesAt, RowsFit;
    var c, last := changes[n], Run(host, fold, mount, x, changes).value.slots;
    ChangeAt(host, fold, mount, x, changes, n);
    QuietStays(host, fold, mount, x, changes, n + 1, |changes|, c.path);
    FileStays(Run(host, fold, mount, x, changes[..n + 1]).value.slots, last, fold, c.path, c.size, c.mtime);
    if FoldApart(last, fold) && RowsFit(last, rows) {
      ExactIsTree(last);
      var k: nat :| IsFile(last, k) && LiesAt(last, fold, k, c.path) && last[k].name == c.path[|c.path| - 1] && last[k].size == c.size && last[k].mtime == c.mtime;
      LyingIsFound(last, rows, fold, k, c.path);
    }
  }

  /** A write into a directory that is not known, or of a path that ends in a dot, changes nothing; nor does a root that could not be read. */
  lemma {:induction false} StrayChangeIsIgnored(host: Host, fold: Fold, mount: seq<Name>, x: State, changes: seq<Change<Scan>>, n: nat)
    requires Started(host, x, changes) && n < |changes| && Run(host, fold, mount, x, changes).Some?
    requires var y, c := Run(host, fold, mount, x, changes[..n]), changes[n];
      y.Some? && if c.Written? then c.path != [] && (!KnownDir(y.value, fold, c.path) || c.path[|c.path| - 1] == DOT)
                 else c.Rescanned? && (c.found.Unreadable? || !KnownDir(y.value, fold, c.path))
    ensures var y, z := Run(host, fold, mount, x, changes[..n]), Run(host, fold, mount, x, changes[..n + 1]);
      z.Some? && z.value.slots == y.value.slots
  {
    hide Sound, FoldApart, AllFit, Run, LeavesAt, LiesAt, Resolve, FileAt;
    ChangeAt(host, fold, mount, x, changes, n);
  }

  /** Where the last change at or above a path found it gone, nothing lies there at the end, and the path resolves to nothing. */
  lemma {:induction false} GoneStaysGone(host: Host, fold: Fold, mount: seq<Name>, x: State, changes: seq<Change<Scan>>, n: nat, p: seq<Name>, rows: Rows)
    requires Started(host, x, changes) && n < |changes| && Run(host, fold, mount, x, changes).Some?
    requires Covers(fold, changes[n].path, p) && QuietFrom(fold, changes, n + 1, p)
    requires var y := Run(host, fold, mount, x, changes[..n]);
      && y.Some? && FoldApart(y.value.slots, fold)
      && (changes[n].Gone? || (changes[n].Rescanned? && changes[n].found.Vanished? && KnownDir(y.value, fold, changes[n].path)))
    ensures var last := Run(host, fold, mount, x, changes).value.slots;
      (forall k: nat :: !LiesAt(last, fold, k, p)) && (RowsFit(last, rows) ==> Resolve(last, rows, fold, p).None?)
  {
    hide Sound, FoldApart, AllFit, Run, QuietFrom, LiesAt, KnownDir, Kept;
    var last := Run(host, fold, mount, x, changes).value.slots;
    ChangeAt(host, fold, mount, x, changes, n);
    QuietStays(host, fold, mount, x, changes, n + 1, |changes|, p);
    if RowsFit(last, rows) && Resolve(last, rows, fold, p).Some? { FoundLies(last, rows, fold, p); }
  }

  /** Where the last change at or above a path was a rescan, what lies there at the end is what lies there in the scan. */
  lemma {:induction false} LastScanStands(host: Host, fold: Fold, mount: seq<Name>, x: State, changes: seq<Change<Scan>>, n: nat, rest: seq<Name>)
    requires Started(host, x, changes) && n < |changes| && Run(host, fold, mount, x, changes).Some?
    requires changes[n].Rescanned? && (changes[n].found.Whole? || changes[n].found.Spilled?) && QuietFrom(fold, changes, n + 1, changes[n].path + rest)
    requires var y := Run(host, fold, mount, x, changes[..n]); y.Some? && FoldApart(y.value.slots, fold) && KnownDir(y.value, fold, changes[n].path)
    ensures Legal(changes[n])
    ensures HoldsScanAt(Run(host, fold, mount, x, changes).value.slots, Seen(changes[n]).value, fold, changes[n].path, rest)
  {
    hide Sound, FoldApart, AllFit, Run, QuietFrom, LiesAt, KnownDir, Kept, HoldsScanAt, Brought, LeavesAt;
    ChangeAt(host, fold, mount, x, changes, n);
    QuietStays(host, fold, mount, x, changes, n + 1, |changes|, changes[n].path + rest);
    var u := Seen(changes[n]).value;
    ScanStays(Run(host, fold, mount, x, changes[..n + 1]).value.slots, Run(host, fold, mount, x, changes).value.slots, u, fold, changes[n].path, rest);
  }

  /** A spill that may not be appended where its directory stood: its head or one of its records is refused. */
  ghost predicate BadSpill(host: Host, fold: Fold, x: State, c: Change<Scan>)
  {
    && c.Rescanned? && c.found.Spilled? && KnownDir(x, fold, c.path)
    && !(HeadOk(host, Cleared(x.slots, x.rows, fold, c.path), Resolve(x.slots, x.rows, fold, c.path[..|c.path| - 1]).value, c.path[|c.path| - 1], |c.found.records|)
         && SpillOk(host, c.found.records))
  }

  lemma {:induction false} FailsOnBadSpill(host: Host, fold: Fold, mount: seq<Name>, x: State, c: Change<Scan>)
    requires Sound(x) && |x.rows| == |x.slots| && Legal(c) && Fits(host, x.slots, c)
    ensures After(host, fold, mount, x, c).None? <==> BadSpill(host, fold, x, c)
  {
    hide Exact, RowsFit, Fits, Resolve, HeadOk, SpillOk, Removed, NewRoot, HandedOn, Grafted, LinkedOn, RollUp, SpillSlots, Upserted, UpsertTarget;
    if c.Rescanned? && !c.found.Unreadable? && !c.found.Vanished? && KnownDir(x, fold, c.path) && !BadSpill(host, fold, x, c) {
      SeenIsExact(host, x, c);
      var p := Resolve(x.slots, x.rows, fold, c.path[..|c.path| - 1]).value;
      ExactIsTree(x.slots);
      DirIsSlot(x.slots, p);
    }
  }

  /** A run fails only at a spill that may not be appended, the changes before it having gone through. */
  lemma {:induction false} RunFailsOnBadSpill(host: Host, fold: Fold, mount: seq<Name>, x: State, changes: seq<Change<Scan>>)
    requires Started(host, x, changes) && Run(host, fold, mount, x, changes).None?
    ensures exists n: nat :: n < |changes| && Run(host, fold, mount, x, changes[..n]).Some? && BadSpill(host, fold, Run(host, fold, mount, x, changes[..n]).value, changes[n])
  {
    hide Sound, BadSpill, After, Fits, AllFit, Run, AllApart, Step, FoldApart, AllBytes, AllNodes;
    var n := 0;
    RunBegins(host, fold, mount, x, changes);
    assert changes[..|changes|] == changes;
    while n < |changes| && Run(host, fold, mount, x, changes[..n + 1]).Some?
      invariant n <= |changes| && Run(host, fold, mount, x, changes[..n]).Some?
    {
      n := n + 1;
    }
    PrefixStarted(host, x, changes, n);
    assert changes[..n][..n] == changes[..n];
    RunFollows(host, fold, mount, x, changes[..n], n);
    RunNext(host, fold, mount, x, changes, n);
    NextFits(host, x.slots, Run(host, fold, mount, x, changes[..n]).value.slots, changes, n);
    FailsOnBadSpill(host, fold, mount, Run(host, fold, mount, x, changes[..n]).value, changes[n]);
  }

  lemma {:induction false} PrefixStarted(host: Host, x: State, changes: seq<Change<Scan>>, n: nat)
    requires Started(host, x, changes) && n <= |changes|
    ensures Started(host, x, changes[..n]) && AllFit(host, x.slots, changes)
  {
    hide Exact, RowsFit, Applicable, Legal;
    PrefixWeighsLess(changes, n);
    forall c | c in changes[..n] ensures c in changes { }
  }

  /** A spilled record lies at the path its record chain spells, below the scanned directory. */
  ghost predicate RecordLies(records: seq<Record>, fold: Fold, k: nat, rest: seq<Name>)
    decreases |rest|
  {
    && k < |records| && rest != [] && fold(records[k].name) == fold(rest[|rest| - 1])
    && var above := rest[..|rest| - 1];
    if records[k].parent == 0 then above == [] else RecordLies(records, fold, records[k].parent - 1, above)
  }

  /** Node k + 1 is record k. */
  ghost predicate Mirrors(u: Arena, records: seq<Record>)
  {
    && |u| == |records| + 1 && Valid(u, 0)
    && forall k: nat {:trigger records[k]} :: k < |records| ==>
      && Valid(u, k + 1) && u[k + 1].parent == records[k].parent
      && u[k + 1].name == records[k].name && u[k + 1].isDir == records[k].isDir && u[k + 1].mtime == records[k].mtime && (!records[k].isDir ==> u[k + 1].size == records[k].size)
  }

  lemma MirrorsRoot(records: seq<Record>, rootName: Name)
    ensures |RollUp(SpillSlots(rootName, 0, records))| == |records| + 1 && Valid(RollUp(SpillSlots(rootName, 0, records)), 0)
  {
    hide RollUp;
    RollUpIsSame(SpillSlots(rootName, 0, records));
  }

  lemma MirrorsOne(records: seq<Record>, rootName: Name, k: nat)
    requires k < |records|
    ensures |RollUp(SpillSlots(rootName, 0, records))| == |records| + 1
    ensures var e := RollUp(SpillSlots(rootName, 0, records))[k + 1];
      && e.used && e.parent == records[k].parent
      && e.name == records[k].name && e.isDir == records[k].isDir && e.mtime == records[k].mtime && (!records[k].isDir ==> e.size == records[k].size)
  {
    hide RollUp;
    RollUpIsSame(SpillSlots(rootName, 0, records));
    assert SpillSlots(rootName, 0, records)[k + 1] == SpillSlot(records[k]);
  }

  lemma SpillMirrors(records: seq<Record>, rootName: Name)
    ensures Mirrors(RollUp(SpillSlots(rootName, 0, records)), records)
  {
    hide RollUp, SpillSlots;
    MirrorsRoot(records, rootName);
    forall k: nat | k < |records|
      ensures var e := RollUp(SpillSlots(rootName, 0, records))[k + 1];
        && e.used && e.parent == records[k].parent
        && e.name == records[k].name && e.isDir == records[k].isDir && e.mtime == records[k].mtime && (!records[k].isDir ==> e.size == records[k].size)
    {
      MirrorsOne(records, rootName, k);
    }
  }

  lemma {:induction false} RecordLiesInScan(u: Arena, records: seq<Record>, fold: Fold, k: nat, rest: seq<Name>)
    requires Mirrors(u, records) && RecordLies(records, fold, k, rest)
    ensures LiesAt(u, fold, k + 1, rest)
    decreases |rest|
  {
    var above := rest[..|rest| - 1];
    if records[k].parent == 0 {
      assert LiesAt(u, fold, 0, above);
    } else {
      RecordLiesInScan(u, records, fold, records[k].parent - 1, above);
    }
  }

  lemma {:induction false} RecordInRange(records: seq<Record>, fold: Fold, k: nat, rest: seq<Name>)
    requires RecordLies(records, fold, k, rest)
    ensures k < |records| && rest != []
  {
  }

  lemma {:induction false} RecordHeld(t: Arena, u: Arena, records: seq<Record>, fold: Fold, q: seq<Name>, rest: seq<Name>, k: nat)
    requires HoldsScanAt(t, u, fold, q, rest) && Mirrors(u, records) && RecordLies(records, fold, k, rest) && rest != [] && k < |records|
    ensures var r := records[k];
      exists j: nat :: LiesAt(t, fold, j, q + rest) && t[j].name == r.name && t[j].isDir == r.isDir && t[j].mtime == r.mtime && (!r.isDir ==> t[j].size == r.size)
  {
    hide RecordLies, HoldsScanAt, LiesAt;
    RecordLiesInScan(u, records, fold, k, rest);
    HeldCopy(t, u, fold, q, rest, k + 1);
  }

  lemma {:induction false} HeldCopy(t: Arena, u: Arena, fold: Fold, q: seq<Name>, rest: seq<Name>, i: nat)
    requires HoldsScanAt(t, u, fold, q, rest) && LiesAt(u, fold, i, rest) && rest != []
    ensures i < |u| && exists j: nat :: LiesAt(t, fold, j, q + rest) && t[j].name == u[i].name && t[j].isDir == u[i].isDir && t[j].mtime == u[i].mtime && (!u[i].isDir ==> t[j].size == u[i].size)
  {
    hide ScanOnly;
    var j: nat :| LiesAt(t, fold, j, q + rest) && StandsIn(u, i, t, j, false);
  }

  /** Where the last change at or above a path was a rescan spilled to disk, each of its records stands there with its name, kind, time and a file's size. */
  lemma {:induction false} SpilledRecordStands(host: Host, fold: Fold, mount: seq<Name>, x: State, changes: seq<Change<Scan>>, n: nat, k: nat, rest: seq<Name>)
    requires Started(host, x, changes) && n < |changes| && Run(host, fold, mount, x, changes).Some?
    requires changes[n].Rescanned? && changes[n].found.Spilled? && QuietFrom(fold, changes, n + 1, changes[n].path + rest)
    requires var y := Run(host, fold, mount, x, changes[..n]); y.Some? && FoldApart(y.value.slots, fold) && KnownDir(y.value, fold, changes[n].path)
    requires RecordLies(changes[n].found.records, fold, k, rest)
    ensures var r, last := changes[n].found.records[k], Run(host, fold, mount, x, changes).value.slots;
      exists j: nat :: LiesAt(last, fold, j, changes[n].path + rest) && last[j].name == r.name && last[j].isDir == r.isDir && last[j].mtime == r.mtime && (!r.isDir ==> last[j].size == r.size)
  {
    hide Sound, FoldApart, AllFit, Run, QuietFrom, LiesAt, KnownDir, RollUp, SpillSlots, HoldsScanAt, RecordLies, Mirrors, Started;
    ScanKnown(host, x, changes, n);
    LastScanStands(host, fold, mount, x, changes, n, rest);
    var c := changes[n];
    RecordInRange(c.found.records, fold, k, rest);
    RecordHeld(Run(host, fold, mount, x, changes).value.slots, Seen(c).value, c.found.records, fold, c.path, rest, k);
  }

  lemma ScanKnown(host: Host, x: State, changes: seq<Change<Scan>>, n: nat)
    requires Started(host, x, changes) && n < |changes| && changes[n].Rescanned? && changes[n].found.Spilled?
    ensures |x.rows| == |x.slots| && (forall c :: c in changes ==> Legal(c)) && Legal(changes[n]) && Mirrors(Seen(changes[n]).value, changes[n].found.records)
  {
    hide Sound, AllFit, Mirrors, RollUp, SpillSlots;
    assert changes[n] in changes;
    SpillMirrors(changes[n].found.records, changes[n].path[|changes[n].path| - 1]);
  }

  /** The place a rescan is grafted at is the changed path below the mount, up to folding, unless its directory has no path. */
  lemma {:induction false} GraftedAtItsPath(host: Host, fold: Fold, mount: seq<Name>, x: State, c: Change<Scan>, root: Place)
    requires Sound(x) && |x.rows| == |x.slots| && Legal(c) && Fits(host, x.slots, c) && Replay.Grafts(host, fold, mount, x, c, root)
    ensures var y := After(host, fold, mount, x, c);
      && y.Some?
      && (root.rooted ==> |root.names| == |mount| + |c.path| && mount <= root.names && Covers(fold, root.names[|mount|..], c.path))
      && (|c.path| <= PATH_LIMIT && (forall i :: 0 < i < |y.value.slots| && y.value.slots[i].used ==> Joinable(y.value.slots[i].name)) ==> root.rooted)
  {
    hide Exact, RowsFit, FoldApart, LeavesAt, After, Fits, Follows, PutThere, Joinable, LiesAt, Resolve;
    var y, n := After(host, fold, mount, x, c).value, |c.path| - 1;
    var p := Resolve(x.slots, x.rows, fold, c.path[..n]).value;
    AfterFollows(host, fold, mount, x, c);
    FollowsKeeps(fold, x, c, y, c.path[..n]);
    FoundLies(x.slots, x.rows, fold, c.path[..n]);
    LyingStays(x.slots, y.slots, fold, p, c.path[..n]);
    ExactIsTree(y.slots);
    LyingHasPath(y.slots, fold, p, c.path[..n], PATH_LIMIT);
  }

  lemma FollowsKeeps(fold: Fold, x: State, c: Change<Scan>, y: State, p: seq<Name>)
    requires Legal(c) && Follows(fold, x, c, y) && |p| < |c.path|
    ensures LeavesAt(x.slots, y.slots, fold, p) && Exact(y.slots)
  {
    hide Exact, RowsFit, LeavesAt;
  }

  lemma {:induction false} LyingStays(s: Arena, t: Arena, fold: Fold, k: nat, p: seq<Name>)
    requires LeavesAt(s, t, fold, p) && LiesAt(s, fold, k, p)
    ensures LiesAt(t, fold, k, p) && Valid(t, k)
  {
  }

  /** What no change concerns stays where it was, with its name, kind and time and a file's size. */
  lemma {:induction false} UntouchedStays(host: Host, fold: Fold, mount: seq<Name>, x: State, changes: seq<Change<Scan>>, p: seq<Name>)
    requires Started(host, x, changes) && Run(host, fold, mount, x, changes).Some? && QuietFrom(fold, changes, 0, p)
    ensures LeavesAt(x.slots, Run(host, fold, mount, x, changes).value.slots, fold, p)
  {
    hide AllFit, Sound, LeavesAt, QuietFrom;
    QuietStays(host, fold, mount, x, changes, 0, |changes|, p);
    assert changes[..|changes|] == changes && changes[..0] == [];
  }
}
