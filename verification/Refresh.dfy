/** Refreshing a tree from file-system changes: every step keeps the totals exact, and the result is what replaying them comes to. */
module Refresh {
  import opened Words
  import opened Forest
  import opened Slots
  import opened Ancestors
  import opened Worklist
  import opened Edits
  import opened Grafting
  import opened ChildRows
  import opened Coverage
  import opened Validation
  import opened SizeTrees
  import opened SpillTrees
  import opened Replay
  import RootCoalescing

  /** No live chain of u is longer than h. */
  ghost predicate NoDeeperThan(u: Arena, h: nat)
  {
    forall i :: Valid(u, i) ==> Up(Edges(u), i, h).None?
  }

  /** A change within the depth one walk covers. */
  ghost predicate Applicable(host: Host, c: Change<Scan>)
  {
    && 1 <= |c.path| < WALK_LIMIT
    && (c.Rescanned? && c.found.Whole? ==> Exact(c.found.scan.slots) && NoDeeperThan(c.found.scan.slots, WALK_LIMIT - |c.path|))
    && (c.Rescanned? && c.found.Spilled? && SpillOk(host, c.found.records) ==>
          NoDeeperThan(SpillSlots(c.path[|c.path| - 1], 0, c.found.records), WALK_LIMIT - |c.path|))
  }

  /** The file bytes a change may bring. */
  ghost function NewBytes(c: Change<Scan>): nat
  {
    if c.Written? then c.size
    else if c.Rescanned? && c.found.Whole? then BytesBelow(c.found.scan.slots, 0)
    else if c.Rescanned? && c.found.Spilled? && c.path != [] then BytesBelow(SpillSlots(c.path[|c.path| - 1], 0, c.found.records), 0)
    else 0
  }

  /** The nodes a change may bring. */
  ghost function NewNodes(c: Change<Scan>): nat
  {
    if c.Written? then 1
    else if c.Rescanned? && c.found.Whole? then |c.found.scan.slots|
    else if c.Rescanned? && c.found.Spilled? then |c.found.records| + 1
    else 0
  }

  /** The edited slots: exact, with every old identity kept, and no heavier than the bound. */
  ghost predicate Step(s: Arena, t: Arena, bytes: nat, nodes: nat)
  {
    Exact(t) && Persists(s, t) && BytesBelow(t, 0) <= BytesBelow(s, 0) + bytes && |t| <= |s| + nodes
  }

  lemma RemoveStep(s: Arena, idx: nat)
    requires Exact(s) && Valid(s, idx) && idx != 0
    ensures Step(s, Removed(s, idx), 0, 0)
  {
    RemoveKeepsExact(s, idx);
    RemovedPersists(s, idx);
    RemovedWeighsLess(s, idx);
  }

  lemma LeafStep(s: Arena, leaf: Slot)
    requires Exact(s) && leaf.used && !leaf.isDir && IsDir(s, leaf.parent)
    requires Up(Edges(s), leaf.parent, WALK_LIMIT - 1).None?
    requires BytesBelow(s, 0) + leaf.size <= MAX_U64 && |s| < MAX_U32
    ensures Step(s, WithLeaf(s, leaf), leaf.size, 1)
  {
    LeafKeepsExact(s, leaf);
    WalkPersists(s, s + [leaf], Chain(s + [leaf], leaf.parent), AddTotals(leaf.size, 1));
  }

  lemma ResizeStep(s: Arena, i: nat, size: U64, mtime: U64)
    requires Exact(s) && IsFile(s, i) && BytesBelow(s, 0) + size <= MAX_U64
    ensures Step(s, WithSize(s, i, size, mtime), size, 0)
  {
    ResizedTotals(s, i, size, mtime, 0);
    ResizeKeepsExact(s, i, size, mtime);
    var t := Resized(s, i, size, mtime);
    WalkPersists(s, t, Chain(t, s[i].parent), SwapSize(s[i].size, size));
  }

  lemma {:induction false} GraftStep(s: Arena, u: Arena, p: U32, rootName: Name, h: nat)
    requires Exact(s) && Exact(u) && IsDir(s, p) && |s| + |u| <= MAX_U32
    requires BytesBelow(s, 0) + BytesBelow(u, 0) <= MAX_U64
    requires h <= WALK_LIMIT && NoDeeperThan(u, h) && Up(Edges(s), p, WALK_LIMIT - h).None?
    ensures Step(s, Grafted(s, u, p, rootName), BytesBelow(u, 0), |u|)
  {
    GraftKeepsExact(s, u, p, rootName, h);
    var t := Joined(s, u, p, rootName);
    WalkPersists(s, t, Chain(t, p), AddTotals(u[0].size, u[0].files));
  }

  lemma StepsCompose(r: Arena, s: Arena, t: Arena, b: nat, n: nat, b': nat, n': nat)
    requires Step(r, s, b, n) && Step(s, t, b', n')
    ensures Step(r, t, b + b', n + n')
  {
  }

  /** An upsert is at most a removal followed by an append. */
  lemma {:induction false} UpsertStep(s: Arena, p: nat, found: Option<nat>, name: Name, size: U64, mtime: U64)
    requires Exact(s) && IsDir(s, p) && |s| < MAX_U32 && BytesBelow(s, 0) + size <= MAX_U64
    requires found.Some? ==> Valid(s, found.value) && found.value != 0 && s[found.value].parent == p
    requires Up(Edges(s), p, WALK_LIMIT - 1).None?
    ensures Step(s, Upserted(s, p, found, name, size, mtime), size, 1)
  {
    if found.Some? && !s[found.value].isDir && s[found.value].name == name {
      ResizeStep(s, found.value, size, mtime);
    } else {
      var leaf := Slot(p, name, false, size, true, mtime, 0);
      var s1 := if found.Some? then Removed(s, found.value) else s;
      if found.Some? {
        RemoveStep(s, found.value);
        RemovedWellFormed(s, found.value);
        RemovedDepth(s, found.value, p, WALK_LIMIT - 1);
        LeafStep(s1, leaf);
        StepsCompose(s, s1, WithLeaf(s1, leaf), 0, 0, size, 1);
      } else {
        LeafStep(s, leaf);
      }
    }
  }

  lemma StayStep(s: Arena, bytes: nat, nodes: nat)
    requires Exact(s)
    ensures Step(s, s, bytes, nodes)
  {
  }

  lemma {:induction false} UpsertIsStep(t: SizeTree, path: seq<Name>, size: U64, mtime: U64)
    requires t.Ok() && Exact(t.Slots()) && 1 <= |path| < WALK_LIMIT
    requires BytesBelow(t.Slots(), 0) + size <= MAX_U64 && t.NodeCount() + 1 <= MAX_U32
    ensures var r := UpsertTarget(t.Slots(), t.Kids(), t.fold, path);
            r.Some? ==> (r.value < MAX_U32 &&
              Step(t.Slots(), Upserted(t.Slots(), r.value, Resolve(t.Slots(), t.Kids(), t.fold, path), path[|path| - 1], size, mtime), size, 1))
  {
    hide t.Shaped, Step, Upserted, CachesFit;
    var s, rows := t.Slots(), t.Kids();
    var r := UpsertTarget(s, rows, t.fold, path);
    if r.Some? {
      var found := Resolve(s, rows, t.fold, path);
      ResolvedDepth(s, rows, t.fold, path[..|path| - 1]);
      ChainEnds(Edges(s), r.value, |path|, WALK_LIMIT - 1);
      if found.Some? { FoundUnderParent(s, rows, t.fold, path); }
      UpsertStep(s, r.value, found, path[|path| - 1], size, mtime);
    }
  }

  lemma {:induction false} RegraftStep(s: Arena, s1: Arena, u: Arena, p: nat, name: Name, depth: nat)
    requires s1 == s || Step(s, s1, 0, 0)
    requires Exact(s) && Exact(u) && |s| + |u| <= MAX_U32 && BytesBelow(s, 0) + BytesBelow(u, 0) <= MAX_U64
    requires IsDir(s1, p) && Up(Edges(s1), p, depth).None? && 1 <= depth < WALK_LIMIT && NoDeeperThan(u, WALK_LIMIT - depth)
    ensures Exact(s1) && |s1| + |u| <= MAX_U32 && p <= MAX_U32 && |u| > 0
    ensures Step(s, Grafted(s1, u, p, name), BytesBelow(u, 0), |u|)
  {
    StayStep(s, 0, 0);
    GraftStep(s1, u, p, name, WALK_LIMIT - depth);
    StepsCompose(s, s1, Grafted(s1, u, p, name), 0, 0, BytesBelow(u, 0), |u|);
  }

  // -- The tree a spill becomes is exact ---------------------------------------------------------

  lemma RolledDirHolds(u: Arena, d: nat)
    requires LiveParentFirst(u) && IsDir(u, d) && BytesBelow(u, 0) <= MAX_U64 && |u| <= MAX_U32
    ensures RollUp(u)[d].size == BytesBelow(u, d) && RollUp(u)[d].files == FilesBelow(u, d)
  {
    hide RollUp, OnCycle, Reaches, Total, Edges, LiveParentFirst;
    ParentsFirstIsTree(u);
    NotOnCycle(u, d);
    RollUpIsExact(u, d);
    LiveBelowRoot(u, d);
    TotalMonotone(u, SizeWeight(u), d, 0);
    FilesBounded(u, d);
  }

  lemma {:induction false} RolledShape(u: Arena, h: nat)
    requires LiveParentFirst(u) && h <= WALK_LIMIT && NoDeeperThan(u, h)
    ensures var v := RollUp(u); SameButTotals(u, v) && WellFormed(v) && Shallow(v) && NoDeeperThan(v, h) && BytesBelow(v, 0) == BytesBelow(u, 0)
  {
    hide RollUp, OnCycle, Reaches, BytesBelow, FilesBelow, Edges, LiveParentFirst, Up, WellFormed;
    var v := RollUp(u);
    RollUpLength(u);
    RollUpIsSame(u);
    RolledIsParentsFirst(u);
    ParentsFirstIsTree(v);
    SameGraph(u, v);
    forall i | Valid(v, i) ensures Up(Edges(v), i, h).None? && Up(Edges(v), i, WALK_LIMIT).None? {
      assert Valid(u, i);
      ChainEnds(Edges(v), i, h, WALK_LIMIT);
    }
  }

  /** Rolling a spill up leaves exact totals, no deeper and no heavier than its records. */
  lemma {:induction false} RolledIsExact(u: Arena, h: nat)
    requires LiveParentFirst(u) && BytesBelow(u, 0) <= MAX_U64 && |u| <= MAX_U32 && h <= WALK_LIMIT && NoDeeperThan(u, h)
    ensures var v := RollUp(u); |v| == |u| && Exact(v) && NoDeeperThan(v, h) && BytesBelow(v, 0) == BytesBelow(u, 0)
  {
    hide RollUp, OnCycle, Reaches, BytesBelow, FilesBelow, Edges, LiveParentFirst, Up, WellFormed, Shallow, NoDeeperThan;
    var v := RollUp(u);
    RolledShape(u, h);
    SameGraph(u, v);
    forall d: nat | IsDir(v, d) ensures v[d].size == BytesBelow(v, d) && v[d].files == FilesBelow(v, d) {
      assert IsDir(u, d);
      RolledDirHolds(u, d);
    }
  }

  // -- One change ------------------------------------------------------------------------------

  ghost function StateOf(t: SizeTree, unknown: seq<Place>, cleared: set<seq<Name>>): (x: State)
    reads t
  {
    State(t.Slots(), t.Kids(), t.blocked, unknown, cleared)
  }

  ghost function Meaning(c: Change<SizeTree>): (r: Change<Scan>)
    reads if c.Rescanned? && c.found.Whole? then {c.found.scan} else {}
  {
    match c
    case Gone(path) => Gone(path)
    case Written(path, size, mtime) => Written(path, size, mtime)
    case Rescanned(path, found) => Rescanned(path,
      match found
      case Unreadable => Unreadable
      case Vanished => Vanished
      case Whole(t) => Whole(Scan(t.Slots(), t.mount, t.blocked))
      case Spilled(records, from, gaps) => Spilled(records, from, gaps))
  }

  /** c means e, and a scanned tree of its own is sound. */
  ghost predicate StandsFor(t: SizeTree, c: Change<SizeTree>, e: Change<Scan>)
    reads if c.Rescanned? && c.found.Whole? then {c.found.scan} else {}
  {
    Meaning(c) == e && (c.Rescanned? && c.found.Whole? ==> c.found.scan != t && c.found.scan.Ok())
  }

  ghost predicate Fits(host: Host, s: Arena, e: Change<Scan>)
  {
    Exact(s) && Applicable(host, e) && BytesBelow(s, 0) + NewBytes(e) <= MAX_U64 && |s| + NewNodes(e) <= MAX_U32
  }

  lemma ApplicableIsLegal(host: Host, e: Change<Scan>)
    requires Applicable(host, e)
    ensures Legal(e)
  {
  }

  /** Applies one change, as replaying it says. Changes to directories the tree does not know are dropped. */
  method ApplyChange(host: Host, t: SizeTree, c: Change<SizeTree>, unknown: seq<Place>, cleared: set<seq<Name>>, ghost e: Change<Scan>)
    returns (ok: bool, unknown': seq<Place>, cleared': set<seq<Name>>)
    requires t.Ok() && StandsFor(t, c, e) && Fits(host, t.Slots(), e)
    modifies t
    ensures Legal(e)
    ensures ok <==> After(host, t.fold, t.mount, old(StateOf(t, unknown, cleared)), e).Some?
    ensures ok ==> t.Ok() && t.base == old(t.base) && StateOf(t, unknown', cleared') == After(host, t.fold, t.mount, old(StateOf(t, unknown, cleared)), e).value
    ensures ok ==> Step(old(t.Slots()), t.Slots(), NewBytes(e), NewNodes(e))
  {
    hide Step, WellFormed, RowsFit, CachesFit, Overlay, RowOf, Climb, NoDeeperThan, t.Shaped;
    ApplicableIsLegal(host, e);
    ghost var s, rows := t.Slots(), t.Kids();
    ok, unknown', cleared' := true, unknown, cleared;
    match c
    case Gone(path) =>
      Drop(t, path);
      cleared' := cleared + {t.mount + path};
    case Written(path, size, mtime) =>
      UpsertIsStep(t, path, size, mtime);
      var found := t.UpsertFileWithMtime(path, size, mtime);
      StayStep(s, size, 1);
    case Rescanned(path, found) =>
      if found.Unreadable? {
        unknown' := unknown + [Place(true, t.mount + path)];
        StayStep(s, 0, 0);
      } else {
        ok, cleared' := Look(host, t, path, found, unknown, cleared, e);
      }
  }

  method Drop(t: SizeTree, path: seq<Name>)
    requires t.Ok() && Exact(t.Slots()) && path != []
    modifies t`overrides, t`entries, t`childNames, t`ancestorStamp, t`ancestorGen
    ensures t.Ok() && t.Kids() == old(t.Kids())
    ensures t.Slots() == Cleared(old(t.Slots()), old(t.Kids()), t.fold, path)
    ensures Step(old(t.Slots()), t.Slots(), 0, 0)
  {
    hide Removed, Step, RowsFit, CachesFit, Overlay, RowOf, t.Shaped;
    ghost var s := t.Slots();
    StayStep(s, 0, 0);
    var found := t.FindNodeByPath(path);
    if found.Some? {
      FoundUnderParent(s, t.Kids(), t.fold, path);
      RemoveStep(s, found.value);
      t.RemoveSubtreeInplace(found.value);
    }
  }

  /** Replaces what stood at path by what was found there. */
  method Look(host: Host, t: SizeTree, path: seq<Name>, found: Found<SizeTree>, ghost unknown: seq<Place>, cleared: set<seq<Name>>, ghost e: Change<Scan>)
    returns (ok: bool, cleared': set<seq<Name>>)
    requires t.Ok() && !found.Unreadable? && StandsFor(t, Rescanned(path, found), e) && Fits(host, t.Slots(), e)
    modifies t
    ensures Legal(e)
    ensures ok <==> Replaced(host, t.fold, t.mount, old(StateOf(t, unknown, cleared)), path, e.found).Some?
    ensures ok ==> t.Ok() && t.base == old(t.base) && StateOf(t, unknown, cleared') == Replaced(host, t.fold, t.mount, old(StateOf(t, unknown, cleared)), path, e.found).value
    ensures ok ==> Step(old(t.Slots()), t.Slots(), NewBytes(e), NewNodes(e))
  {
    hide Removed, BytesBelow, Edges, Up, CountWeight, t.NamesFit, t.StampsFit, Step, RowsFit, CachesFit, Overlay, RowOf, t.Shaped, NoDeeperThan, Grafted, WellFormed, Resolve, Regrown, Refused, Brought, LinkedOn;
    ApplicableIsLegal(host, e);
    ghost var x, s := StateOf(t, unknown, cleared), t.Slots();
    StayStep(s, NewBytes(e), NewNodes(e));
    ok, cleared' := true, cleared;
    var name := path[|path| - 1];
    var parent := t.FindNodeByPath(path[..|path| - 1]);
    if parent.None? || !t.LiveDir(parent.value) {
      return;
    }
    cleared' := cleared + {t.mount + path};
    ClearAt(t, path, parent.value);
    NothingLinkedOn(t.Slots(), t.Kids());
    if !found.Vanished? {
      ok := Attach(host, t, path, parent.value, found, unknown, cleared', e, s);
    }
  }

  /** Grafts what was found, copied or streamed, where the old nodes were removed. */
  method Attach(host: Host, t: SizeTree, path: seq<Name>, parent: nat, found: Found<SizeTree>, ghost unknown: seq<Place>, ghost cleared: set<seq<Name>>,
                ghost e: Change<Scan>, ghost s: Arena)
    returns (ok: bool)
    requires t.Ok() && (found.Whole? || found.Spilled?) && StandsFor(t, Rescanned(path, found), e) && Fits(host, s, e)
    requires Step(s, t.Slots(), 0, 0) && t.LiveDir(parent) && Up(Edges(t.Slots()), parent, |path|).None?
    modifies t
    ensures path != [] && (found.Whole? ==> e.found.scan.slots != [])
    ensures |old(t.Slots())| + |Brought(path[|path| - 1], e.found).slots| <= MAX_U32 && parent <= MAX_U32
    ensures ok <==> !Refused(host, old(t.Slots()), parent, path[|path| - 1], e.found)
    ensures ok ==> t.Ok() && t.base == old(t.base)
    ensures ok ==> StateOf(t, unknown, cleared) == Regrown(t.mount, old(StateOf(t, unknown, cleared)), parent, path[|path| - 1], Brought(path[|path| - 1], e.found))
    ensures ok ==> Step(s, t.Slots(), NewBytes(e), NewNodes(e))
  {
    hide Fits, BytesBelow, Edges, Up, Step, NewBytes, NewNodes, Grafted, WellFormed, HandedOn, NewRoot, LinkedOn, SpillOk, HeadOk, SpillSlots, RollUp, IsDir, SizeTree.Ok, SizeTree.Slots, SizeTree.Kids, Overlay, RowsOf;
    BroughtStep(host, s, t.Slots(), parent, e);
    var name := path[|path| - 1];
    match found
    case Whole(subtree) =>
      t.AppendSubtree(parent, subtree, name);
      ok := true;
    case Spilled(records, from, gaps) =>
      ok := AppendSpillSubtree(host, t, parent, name, records, from, gaps);
  }

  /** What a rescan brought may be grafted, and grafting it is one step. */
  ghost predicate Grafts(host: Host, s: Arena, s1: Arena, p: nat, e: Change<Scan>)
    requires Legal(e) && e.Rescanned? && (e.found.Whole? || e.found.Spilled?)
  {
    var name := e.path[|e.path| - 1];
    var u := Brought(name, e.found).slots;
    && p <= MAX_U32 && WellFormed(s1) && |s1| + |u| <= MAX_U32
    && (e.found.Whole? ==> WellFormed(u))
    && (e.found.Spilled? ==> BytesBelow(SpillSlots(name, 0, e.found.records), 0) <= MAX_U64)
    && (e.found.Whole? || SpillOk(host, e.found.records) ==> Step(s, Grafted(s1, u, p, name), NewBytes(e), NewNodes(e)))
  }

  lemma {:induction false} BroughtStep(host: Host, s: Arena, s1: Arena, p: nat, e: Change<Scan>)
    requires Fits(host, s, e) && e.Rescanned? && (e.found.Whole? || e.found.Spilled?)
    requires Step(s, s1, 0, 0) && IsDir(s1, p) && Up(Edges(s1), p, |e.path|).None?
    ensures Legal(e) && Grafts(host, s, s1, p, e)
  {
    hide Grafts, Applicable, Legal, Exact, BytesBelow, NewBytes, NewNodes, Step, Up, Edges;
    ApplicableIsLegal(host, e);
    if e.found.Whole? { WholeGrafts(host, s, s1, p, e); } else { SpillGrafts(host, s, s1, p, e); }
  }

  lemma {:induction false} WholeGrafts(host: Host, s: Arena, s1: Arena, p: nat, e: Change<Scan>)
    requires Fits(host, s, e) && e.Rescanned? && e.found.Whole? && Legal(e)
    requires Step(s, s1, 0, 0) && IsDir(s1, p) && Up(Edges(s1), p, |e.path|).None?
    ensures Grafts(host, s, s1, p, e)
  {
    hide BytesBelow, Edges, Up, Step, NoDeeperThan, Grafted, ExactTotals, Shallow, Acyclic;
    StepFacts(s, s1);
    RegraftStep(s, s1, e.found.scan.slots, p, e.path[|e.path| - 1], |e.path|);
  }

  lemma {:induction false} SpillGrafts(host: Host, s: Arena, s1: Arena, p: nat, e: Change<Scan>)
    requires Fits(host, s, e) && e.Rescanned? && e.found.Spilled? && Legal(e)
    requires Step(s, s1, 0, 0) && IsDir(s1, p) && Up(Edges(s1), p, |e.path|).None?
    ensures Grafts(host, s, s1, p, e)
  {
    hide BytesBelow, Edges, Up, Step, NoDeeperThan, Grafted, WellFormed, SpillOk, SpillSlots, RollUp, ExactTotals, Shallow;
    SpillStep(host, s, s1, p, e.path[|e.path| - 1], |e.path|, e.found.records);
  }

  lemma StepFacts(s: Arena, s1: Arena)
    requires Step(s, s1, 0, 0)
    ensures Exact(s1) && WellFormed(s1) && |s1| <= |s|
  {
  }

  /** A spill that is sound is grafted as the tree its records become. */
  lemma {:induction false} SpillStep(host: Host, s: Arena, s1: Arena, p: nat, name: Name, depth: nat, records: seq<Record>)
    requires Step(s, s1, 0, 0) && Exact(s) && 1 <= depth < WALK_LIMIT
    requires var u := SpillSlots(name, 0, records);
      && |s| + |records| + 1 <= MAX_U32 && BytesBelow(s, 0) + BytesBelow(u, 0) <= MAX_U64
      && (SpillOk(host, records) ==> NoDeeperThan(u, WALK_LIMIT - depth))
    requires IsDir(s1, p) && Up(Edges(s1), p, depth).None?
    ensures var u := SpillSlots(name, 0, records);
      && WellFormed(s1) && BytesBelow(u, 0) <= MAX_U64 && |u| == |records| + 1 && |RollUp(u)| == |u| && p <= MAX_U32
      && |s1| + |u| <= MAX_U32
      && (SpillOk(host, records) ==> Step(s, Grafted(s1, RollUp(u), p, name), BytesBelow(u, 0), |records| + 1))
  {
    hide *;
    var u := SpillSlots(name, 0, records);
    StepFacts(s, s1);
    DirIsSlot(s1, p);
    RollUpLength(u);
    if SpillOk(host, records) {
      SpillIsParentsFirst(host, name, 0, records);
      RolledIsExact(u, WALK_LIMIT - depth);
      RegraftStep(s, s1, RollUp(u), p, name, depth);
    }
  }

  lemma DirIsSlot(s: Arena, p: nat)
    requires IsDir(s, p)
    ensures p < |s|
  {
  }

  /** Removes what stands at path; its directory stays as deep as it was. */
  method ClearAt(t: SizeTree, path: seq<Name>, ghost parent: nat)
    requires t.Ok() && Exact(t.Slots()) && path != []
    requires Resolve(t.Slots(), t.Kids(), t.fold, path[..|path| - 1]) == Some(parent) && t.LiveDir(parent)
    modifies t`overrides, t`entries, t`childNames, t`ancestorStamp, t`ancestorGen
    ensures t.Ok() && t.NodeCount() == old(t.NodeCount()) && t.Kids() == old(t.Kids())
    ensures t.Slots() == Cleared(old(t.Slots()), old(t.Kids()), t.fold, path)
    ensures Step(old(t.Slots()), t.Slots(), 0, 0)
    ensures t.LiveDir(parent) && Up(Edges(t.Slots()), parent, |path|).None?
  {
    hide Step, RowsFit, CachesFit, Overlay, RowOf, t.Shaped, WellFormed, Resolve;
    ghost var s := t.Slots();
    StayStep(s, 0, 0);
    ResolvedDepth(s, t.Kids(), t.fold, path[..|path| - 1]);
    var found := t.FindNodeByPath(path);
    if found.Some? {
      FoundUnderParent(s, t.Kids(), t.fold, path);
      RemovedWellFormed(s, found.value);
      RemovedDepth(s, found.value, parent, |path|);
      RemoveStep(s, found.value);
      t.RemoveSubtreeInplace(found.value);
    }
  }

  // -- A whole refresh -------------------------------------------------------------------------

  ghost function AllBytes(changes: seq<Change<Scan>>): nat
  {
    if changes == [] then 0 else AllBytes(changes[..|changes| - 1]) + NewBytes(changes[|changes| - 1])
  }

  ghost function AllNodes(changes: seq<Change<Scan>>): nat
  {
    if changes == [] then 0 else AllNodes(changes[..|changes| - 1]) + NewNodes(changes[|changes| - 1])
  }

  /** The changes mean the events, and no scanned tree is the one they are applied to. */
  ghost predicate Stand(t: SizeTree, changes: seq<Change<SizeTree>>, events: seq<Change<Scan>>)
    reads set c | c in changes && c.Rescanned? && c.found.Whole? :: c.found.scan
  {
    |changes| == |events| && forall i :: 0 <= i < |changes| ==> StandsFor(t, changes[i], events[i])
  }

  /** Changes a tree has room and depth for. */
  ghost predicate AllFit(host: Host, s: Arena, events: seq<Change<Scan>>)
  {
    && Exact(s) && (forall e :: e in events ==> Applicable(host, e) && Legal(e))
    && BytesBelow(s, 0) + AllBytes(events) <= MAX_U64 && |s| + AllNodes(events) <= MAX_U32
  }

  lemma {:induction false} PrefixWeighsLess(events: seq<Change<Scan>>, n: nat)
    requires n <= |events|
    ensures AllBytes(events[..n]) <= AllBytes(events) && AllNodes(events[..n]) <= AllNodes(events)
  {
    if n < |events| {
      var init := events[..|events| - 1];
      assert init[..n] == events[..n];
      PrefixWeighsLess(init, n);
    } else {
      assert events[..n] == events;
    }
  }

  lemma NextFits(host: Host, s: Arena, now: Arena, events: seq<Change<Scan>>, n: nat)
    requires AllFit(host, s, events) && n < |events| && Step(s, now, AllBytes(events[..n]), AllNodes(events[..n]))
    ensures Fits(host, now, events[n])
    ensures AllBytes(events[..n + 1]) == AllBytes(events[..n]) + NewBytes(events[n])
    ensures AllNodes(events[..n + 1]) == AllNodes(events[..n]) + NewNodes(events[n])
  {
    hide NewBytes, NewNodes, Exact, Persists, Applicable, Legal;
    PrefixWeighsLess(events, n + 1);
    assert events[..n + 1][..n] == events[..n];
    assert events[n] in events;
  }

  lemma {:induction false} RunFails(host: Host, fold: Fold, mount: seq<Name>, x: State, events: seq<Change<Scan>>, n: nat)
    requires |x.rows| == |x.slots| && (forall c :: c in events ==> Legal(c)) && n <= |events|
    requires Run(host, fold, mount, x, events[..n]).None?
    ensures Run(host, fold, mount, x, events).None?
  {
    hide After, Legal;
    if n < |events| {
      var m := |events| - 1;
      assert events[..m][..n] == events[..n];
      RunFails(host, fold, mount, x, events[..m], n);
    } else {
      assert events[..n] == events;
    }
  }

  ghost predicate Apart(t: SizeTree, changes: seq<Change<SizeTree>>)
  {
    forall i :: 0 <= i < |changes| && changes[i].Rescanned? && changes[i].found.Whole? ==> changes[i].found.scan != t
  }

  lemma StandApart(t: SizeTree, changes: seq<Change<SizeTree>>, events: seq<Change<Scan>>)
    requires Stand(t, changes, events)
    ensures Apart(t, changes)
  {
    hide SizeTree.Ok, Meaning;
  }

  /** Replays changes until one is refused: the tree is then the run's, exact, with no id reused. */
  method ApplyChanges(host: Host, t: SizeTree, changes: seq<Change<SizeTree>>, uncertain: seq<Place>, ghost events: seq<Change<Scan>>)
    returns (ok: bool, unknown: seq<Place>, cleared: set<seq<Name>>)
    requires t.Ok() && Stand(t, changes, events) && AllFit(host, t.Slots(), events)
    modifies t
    ensures ok <==> Run(host, t.fold, t.mount, old(StateOf(t, uncertain, {})), events).Some?
    ensures ok ==> t.Ok() && t.base == old(t.base) && Run(host, t.fold, t.mount, old(StateOf(t, uncertain, {})), events) == Some(StateOf(t, unknown, cleared))
    ensures ok ==> Step(old(t.Slots()), t.Slots(), AllBytes(events), AllNodes(events))
  {
    hide Step, Exact, Fits, NewBytes, NewNodes, SizeTree.Ok, StandsFor, After, Legal, Applicable, AllBytes, AllNodes;
    ghost var s, x := t.Slots(), StateOf(t, uncertain, {});
    StayStep(s, 0, 0);
    NothingYet(host, t.fold, t.mount, x, events);
    unknown, cleared := uncertain, {};
    StandApart(t, changes, events);
    for i := 0 to |changes|
      invariant t.Ok() && t.base == old(t.base) && Stand(t, changes, events)
      invariant Run(host, t.fold, t.mount, x, events[..i]) == Some(StateOf(t, unknown, cleared))
      invariant Step(s, t.Slots(), AllBytes(events[..i]), AllNodes(events[..i]))
    {
      ghost var now := t.Slots();
      NextFits(host, s, now, events, i);
      RunNext(host, t.fold, t.mount, x, events, i);
      ok, unknown, cleared := ApplyChange(host, t, changes[i], unknown, cleared, events[i]);
      if !ok {
        RunFails(host, t.fold, t.mount, x, events, i + 1);
        return;
      }
      StepsCompose(s, now, t.Slots(), AllBytes(events[..i]), AllNodes(events[..i]), NewBytes(events[i]), NewNodes(events[i]));
    }
    assert events[..|changes|] == events;
    ok := true;
  }

  lemma {:induction false} NothingYet(host: Host, fold: Fold, mount: seq<Name>, x: State, events: seq<Change<Scan>>)
    requires |x.rows| == |x.slots|
    ensures AllBytes(events[..0]) == 0 && AllNodes(events[..0]) == 0 && Run(host, fold, mount, x, events[..0]) == Some(x)
  {
  }

  /** The file changes that no rescanned root covers. */
  function Due<S>(mount: seq<Name>, files: seq<Change<S>>, roots: set<seq<Name>>): (r: seq<Change<S>>)
    ensures forall i :: 0 <= i < |r| ==> r[i] in files && !Inside(roots, mount + r[i].path)
    ensures forall i :: 0 <= i < |files| ==> files[i] in r || Inside(roots, mount + files[i].path)
  {
    if files == [] then []
    else
      var c := files[|files| - 1];
      Due(mount, files[..|files| - 1], roots) + if Inside(roots, mount + c.path) then [] else [c]
  }

  /** The places of changed directories. */
  function RootSet<S>(mount: seq<Name>, roots: seq<Change<S>>): (r: set<seq<Name>>)
    ensures forall p :: p in r <==> exists i :: 0 <= i < |roots| && p == mount + roots[i].path
  {
    if roots == [] then {}
    else RootSet(mount, roots[..|roots| - 1]) + {mount + roots[|roots| - 1].path}
  }

  method DropCovered(mount: seq<Name>, files: seq<Change<SizeTree>>, roots: seq<Change<SizeTree>>) returns (due: seq<Change<SizeTree>>)
    ensures due == Due(mount, files, RootSet(mount, roots))
  {
    var rescanned := {};
    for i := 0 to |roots|
      invariant rescanned == RootSet(mount, roots[..i])
    {
      assert roots[..i + 1][..i] == roots[..i];
      rescanned := rescanned + {mount + roots[i].path};
    }
    assert roots[..|roots|] == roots;
    due := [];
    for i := 0 to |files|
      invariant due == Due(mount, files[..i], rescanned)
    {
      assert files[..i + 1][..i] == files[..i];
      var covered := RootCoalescing.Contains(rescanned, mount + files[i].path);
      if !covered {
        due := due + [files[i]];
      }
    }
    assert files[..|files|] == files;
  }

  method KeepGaps(gaps: seq<Place>, cleared: set<seq<Name>>) returns (kept: seq<Place>)
    ensures kept == KeptGaps(gaps, cleared)
  {
    kept := [];
    for i := 0 to |gaps|
      invariant kept == KeptGaps(gaps[..i], cleared)
    {
      assert gaps[..i + 1][..i] == gaps[..i];
      var covered := false;
      if gaps[i].rooted {
        covered := RootCoalescing.Contains(cleared, gaps[i].names);
      }
      if !covered {
        kept := kept + [gaps[i]];
      }
    }
    assert gaps[..|gaps|] == gaps;
  }

  /** The rows a clone starts with: those of the original when they are edits of a base, rebuilt otherwise. */
  ghost function ClonedRows(t: SizeTree): (r: Rows)
    reads t
  {
    if t.base.Some? then t.Kids() else RowsLinked(t.Slots(), BareRows(None, |t.Slots()|), 0, |t.Slots()|)
  }

  /**
   * A refresh: the original is left alone, and its clone ends as replaying the file changes no root covers and then the
   * roots says, its rows rebuilt in slot order, and its gaps the old ones nothing cleared with those the run reported.
   */
  method RefreshTree(host: Host, original: SizeTree, files: seq<Change<SizeTree>>, roots: seq<Change<SizeTree>>, uncertain: seq<Place>, ghost events: seq<Change<Scan>>)
    returns (updated: Option<SizeTree>)
    requires original.Ok() && AllFit(host, original.Slots(), events)
    requires Stand(original, Due(original.mount, files, RootSet(original.mount, roots)) + roots, events)
    ensures var x := State(original.Slots(), ClonedRows(original), [], uncertain, {});
      var y := Run(host, original.fold, original.mount, x, events);
      && RowsFit(x.slots, x.rows)
      && (updated.Some? <==> y.Some?)
      && (updated.Some? ==>
            var t := updated.value;
            && fresh(t) && t.Ok() && t.base == original.base && t.mount == original.mount
            && t.Slots() == y.value.slots && Step(original.Slots(), t.Slots(), AllBytes(events), AllNodes(events))
            && t.Kids() == RowsLinked(t.Slots(), BareRows(t.base, |t.Slots()|), t.BaseCount(), |t.Slots()|)
            && t.blocked == FinalGaps(original.blocked, y.value))
  {
    hide Step, AllFit, SizeTree.Ok, StandsFor, After, Legal, AllBytes, AllNodes, RowsLinked, BareRows, FinalGaps, RowsFit, Exact, WellFormed, Run, Stand, Due, RootSet;
    AllFitIsSound(host, original.Slots(), events);
    var due := DropCovered(original.mount, files, roots);
    var t := original.Clone();
    RowsAreFit(t);
    var previous := t.blocked;
    t.SetBlockedSubtrees([]);
    Restand(original, t, due + roots, events);
    var ok, unknown, cleared := ApplyChanges(host, t, due + roots, uncertain, events);
    if !ok {
      return None;
    }
    StepIsExact(original.Slots(), t.Slots(), AllBytes(events), AllNodes(events));
    Close(t, previous, unknown, cleared);
    updated := Some(t);
  }

  lemma RowsAreFit(t: SizeTree)
    requires t.Ok()
    ensures RowsFit(t.Slots(), t.Kids()) && |t.Kids()| == |t.Slots()|
  {
  }

  lemma AllFitIsSound(host: Host, s: Arena, events: seq<Change<Scan>>)
    requires AllFit(host, s, events)
    ensures WellFormed(s) && forall e :: e in events ==> Legal(e)
  {
    hide Legal, Applicable;
  }

  lemma StepIsExact(s: Arena, t: Arena, bytes: nat, nodes: nat)
    requires Step(s, t, bytes, nodes)
    ensures Exact(t)
  {
  }

  lemma Restand(t: SizeTree, copy: SizeTree, changes: seq<Change<SizeTree>>, events: seq<Change<Scan>>)
    requires Stand(t, changes, events) && Apart(copy, changes)
    ensures Stand(copy, changes, events)
  {
    hide SizeTree.Ok, Meaning;
  }

  /** Puts the coverage together and lists the children again. */
  method Close(t: SizeTree, previous: seq<Place>, unknown: seq<Place>, cleared: set<seq<Name>>)
    requires t.Ok() && Exact(t.Slots())
    modifies t`blocked, t`children, t`childEdits, t`childNames
    ensures t.Ok() && t.Slots() == old(t.Slots())
    ensures t.Kids() == RowsLinked(t.Slots(), BareRows(t.base, |t.Slots()|), t.BaseCount(), |t.Slots()|)
    ensures t.blocked == FinalGaps(previous, old(StateOf(t, unknown, cleared)))
  {
    hide SizeTree.Shaped, SizeTree.NamesFit, SizeTree.StampsFit, RowsFit, WellFormed, KeptGaps, RowsLinked, BareRows;
    assert WellFormed(t.Slots());
    var kept := KeepGaps(previous, cleared);
    t.SetBlockedSubtrees(kept + t.blocked + unknown);
    t.RebuildChildArrays();
  }
}
