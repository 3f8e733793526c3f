/** Making a tree encodable: counts and times clamped, nodes with names no file can hold dropped and their place marked. */
module Quarantine {
  import opened Words
  import opened Sums
  import opened Forest
  import opened Slots
  import opened Ancestors
  import opened Edits
  import opened ChildRows
  import opened Coverage
  import opened Validation
  import opened SizeTrees

  const PLACEHOLDER: Name := [95]

  /** A name both the format and the readers take. */
  predicate Spelled(host: Host, name: Name)
  {
    |name| <= MAX_U16 && host.utf8(name) && SafeName(host, name)
  }

  function Least(a: U64, b: U64): U64 { if a < b then a else b }

  function Clamped(e: Slot): (r: Slot)
  {
    e.(mtime := Least(e.mtime, MAX_U32), files := Least(e.files, MAX_U32))
  }

  /** What a slot needs for the writer, wherever it hangs. */
  predicate Fine(host: Host, e: Slot, root: bool)
  {
    Representable(host, e) && (e.used && !root ==> SafeName(host, e.name))
  }

  /** The trees the writer starts from: a consistent tree over a validated base of n nodes, and an encodable root. */
  ghost predicate Startable(host: Host, s: Arena, n: nat, edited: set<nat>)
  {
    && WellFormed(s) && |s| <= PARENT_LIMIT && n <= |s| && host.utf8(PLACEHOLDER)
    && (forall i :: 0 <= i < |s| ==> s[i].parent < PARENT_LIMIT)
    && (forall i :: 0 <= i < n ==> Fine(host, Clamped(s[i]), i == 0))
    && (forall i :: 0 <= i < n && i !in edited ==> Fine(host, s[i], i == 0))
    && Fine(host, Clamped(s[0]), true)
  }

  /** The node at or above which a name is lost: appended, not the root, and unspellable. */
  ghost predicate Bad(host: Host, s: Arena, n: nat, j: nat)
  {
    n <= j < |s| && j != 0 && !Spelled(host, s[j].name)
  }

  ghost predicate Spoiled(host: Host, s: Arena, n: nat, i: nat, upTo: nat)
  {
    exists j: nat :: j < upTo && Bad(host, s, n, j) && AtOrBelow(Edges(s), i, j)
  }

  /** The same nodes with fewer of them alive. */
  ghost predicate Thinned(s: Arena, t: Arena)
  {
    |t| == |s| && forall i :: 0 <= i < |s| ==> t[i].parent == s[i].parent && t[i].isDir == s[i].isDir && (t[i].used ==> s[i].used)
  }

  /** A live node's chain is the one it always had. */
  lemma {:induction false} ChainsSurvive(s: Arena, t: Arena, i: nat, k: nat)
    requires WellFormed(s) && WellFormed(t) && Thinned(s, t) && Valid(t, i)
    ensures Up(Edges(t), i, k) == Up(Edges(s), i, k)
    ensures Up(Edges(t), i, k).Some? ==> Valid(t, Up(Edges(t), i, k).value)
  {
    hide Acyclic;
    if k > 0 {
      ChainsSurvive(s, t, i, k - 1);
      var m := Up(Edges(t), i, k - 1);
      if m.Some? && m.value != 0 {
        assert IsDir(t, t[m.value].parent);
      }
    }
  }

  lemma SameAncestors(s: Arena, t: Arena, i: nat, j: nat)
    requires WellFormed(s) && WellFormed(t) && Thinned(s, t) && Valid(t, i)
    ensures AtOrBelow(Edges(t), i, j) <==> AtOrBelow(Edges(s), i, j)
  {
    hide WellFormed;
    forall k: nat ensures Up(Edges(t), i, k) == Up(Edges(s), i, k) { ChainsSurvive(s, t, i, k); }
    if Reaches(Edges(t), i, j) {
      var k: nat :| k >= 1 && Up(Edges(t), i, k) == Some(j);
      assert Up(Edges(s), i, k) == Some(j);
    }
    if Reaches(Edges(s), i, j) {
      var k: nat :| k >= 1 && Up(Edges(s), i, k) == Some(j);
      assert Up(Edges(t), i, k) == Some(j);
    }
  }

  // -- One candidate ----------------------------------------------------------------------

  /** What one candidate's turn does to the slots. */
  ghost function Treated(host: Host, s: Arena, n: nat, i: nat): (t: Arena)
    requires i < |s|
  {
    var c := s[i := Clamped(s[i])];
    if i == 0 || i < n || Spelled(host, s[i].name) then c
    else
      var r := if c[i].used then Removed(c, i) else c;
      if i < |r| then r[i := r[i].(name := PLACEHOLDER)] else r
  }

  /** Partway: the nodes before upTo are encodable, and the dead are exactly those a lost name spoils. */
  ghost predicate Partway(host: Host, s: Arena, t: Arena, n: nat, upTo: nat)
  {
    && Thinned(s, t) && WellFormed(t)
    && (forall i :: 0 <= i < |s| ==> t[i].mtime == s[i].mtime || t[i].mtime == MAX_U32 < s[i].mtime)
    && (forall i :: 0 <= i < |s| ==> t[i].files <= s[i].files)
    && (forall i :: 0 <= i < upTo && i < |s| ==> Fine(host, t[i], i == 0))
    && (forall i :: upTo <= i < |s| ==> t[i].name == s[i].name)
    && (forall i :: 0 <= i < upTo && Bad(host, s, n, i) ==> t[i].name == PLACEHOLDER)
    && (forall i :: 0 <= i < |s| && s[i].used && t[i].used ==> t[i].name == s[i].name)
    && (forall i :: 0 <= i < |s| && s[i].used ==> (t[i].used <==> !Spoiled(host, s, n, i, upTo)))
  }

  lemma ClampKeeps(host: Host, s: Arena, t: Arena, n: nat, i: nat)
    requires Partway(host, s, t, n, i) && i < |s|
    ensures var c := t[i := Clamped(t[i])]; Partway(host, s, c, n, i) && Edges(c) == Edges(t)
  {
    hide Spoiled, Representable, SafeName, Acyclic;
    var c := t[i := Clamped(t[i])];
    assert SameLinks(t, c);
    assert Edges(c) == Edges(t);
  }

  /** A node whose name is kept is encodable once clamped. */
  lemma KeptStep(host: Host, s: Arena, t: Arena, n: nat, i: nat)
    requires Partway(host, s, t, n, i) && i < |s| && !Bad(host, s, n, i) && Fine(host, t[i], i == 0)
    ensures Partway(host, s, t, n, i + 1)
  {
    hide Representable, SafeName, WellFormed, Spoiled, Thinned;
    forall k: nat ensures Spoiled(host, s, n, k, i + 1) <==> Spoiled(host, s, n, k, i) { KeptSpoils(host, s, n, k, i); }
  }

  lemma KeptSpoils(host: Host, s: Arena, n: nat, k: nat, i: nat)
    requires !Bad(host, s, n, i)
    ensures Spoiled(host, s, n, k, i + 1) <==> Spoiled(host, s, n, k, i)
  {
    hide Edges, AtOrBelow, Spelled;
    if Spoiled(host, s, n, k, i) {
      var j: nat :| j < i && Bad(host, s, n, j) && AtOrBelow(Edges(s), k, j);
      assert j < i + 1;
    }
  }

  lemma SpoiledMore(host: Host, s: Arena, n: nat, k: nat, i: nat)
    requires Bad(host, s, n, i)
    ensures Spoiled(host, s, n, k, i + 1) <==> Spoiled(host, s, n, k, i) || AtOrBelow(Edges(s), k, i)
  {
    hide Edges, AtOrBelow, Spelled;
    if Spoiled(host, s, n, k, i) {
      var j: nat :| j < i && Bad(host, s, n, j) && AtOrBelow(Edges(s), k, j);
      assert j < i + 1;
    }
  }

  /** Nothing live lies at or below a node that was dead from the start or is already spoiled. */
  lemma DeadStep(host: Host, s: Arena, t: Arena, n: nat, i: nat, k: nat)
    requires Partway(host, s, t, n, i) && WellFormed(s) && Bad(host, s, n, i) && !t[i].used && k < |s| && s[k].used
    ensures Spoiled(host, s, n, k, i + 1) <==> Spoiled(host, s, n, k, i)
  {
    hide Spelled, Fine, WellFormed, Edges;
    SpoiledMore(host, s, n, k, i);
    if AtOrBelow(Edges(s), k, i) {
      AboveIsLive(s, k, i);
      var j: nat :| j < i && Bad(host, s, n, j) && AtOrBelow(Edges(s), i, j);
      if k != i && i != j { ReachesTransitive(Edges(s), k, i, j); }
      assert AtOrBelow(Edges(s), k, j);
    }
  }

  lemma AboveIsLive(s: Arena, k: nat, i: nat)
    requires Valid(s, k) && AtOrBelow(Edges(s), k, i)
    ensures Valid(s, i)
  {
    if k != i {
      var c := ReachesLastStep(Edges(s), k, i);
      assert HeapEdge(s, c) == Some(i);
    }
  }

  lemma RemovedSlots(t: Arena, i: nat)
    requires WellFormed(t) && Valid(t, i) && i != 0
    ensures var r := Removed(t, i);
      && |r| == |t| && WellFormed(r) && IsDir(r, t[i].parent)
      && forall k :: 0 <= k < |t| ==>
        && r[k].parent == t[k].parent && r[k].name == t[k].name && r[k].isDir == t[k].isDir && r[k].mtime == t[k].mtime
        && r[k].files <= t[k].files && (r[k].used <==> t[k].used && !AtOrBelow(Edges(t), k, i))
  {
    hide WellFormed, Chain, AtOrBelow, Edges;
    RemovedWellFormed(t, i);
  }

  lemma Renamed(r: Arena, i: nat)
    requires i < |r| && !r[i].used && WellFormed(r)
    ensures var x := r[i := r[i].(name := PLACEHOLDER)]; WellFormed(x) && Edges(x) == Edges(r)
  {
    hide Acyclic;
    var x := r[i := r[i].(name := PLACEHOLDER)];
    assert Edges(x) == Edges(r);
  }

  /** A node whose name is lost goes, with all below it, and its tombstone gets a name the format holds. */
  lemma BadStep(host: Host, s: Arena, t: Arena, n: nat, i: nat)
    requires Partway(host, s, t, n, i) && WellFormed(s) && Bad(host, s, n, i) && host.utf8(PLACEHOLDER)
    requires t[i].parent < PARENT_LIMIT && t[i].mtime <= MAX_U32 && t[i].files <= MAX_U32
    ensures var r := if t[i].used then Removed(t, i) else t;
      |r| == |t| && Partway(host, s, r[i := r[i].(name := PLACEHOLDER)], n, i + 1)
  {
    hide Spelled, SafeName, Spoiled, WellFormed, Edges, AtOrBelow, Removed;
    var r := if t[i].used then Removed(t, i) else t;
    if t[i].used { RemovedSlots(t, i); }
    SelfBelow(t, i);
    Renamed(r, i);
    forall k | 0 <= k < |s| && s[k].used ensures r[k].used <==> !Spoiled(host, s, n, k, i + 1) {
      if t[i].used {
        SpoiledMore(host, s, n, k, i);
        if t[k].used { SameAncestors(s, t, k, i); }
      } else {
        DeadStep(host, s, t, n, i, k);
      }
    }
  }

  lemma SelfBelow(t: Arena, i: nat)
    requires i < |t|
    ensures AtOrBelow(Edges(t), i, i)
  {
  }

  lemma TreatedStep(host: Host, s: Arena, t: Arena, n: nat, edited: set<nat>, i: nat)
    requires Startable(host, s, n, edited) && Partway(host, s, t, n, i) && i < |s|
    ensures Partway(host, s, Treated(host, t, n, i), n, i + 1)
  {
    hide WellFormed, Removed, SafeName, Spoiled;
    var c := t[i := Clamped(t[i])];
    ClampKeeps(host, s, t, n, i);
    assert Spelled(host, t[i].name) == Spelled(host, s[i].name);
    if Bad(host, s, n, i) {
      BadStep(host, s, c, n, i);
    } else {
      assert Fine(host, c[i], i == 0);
      KeptStep(host, s, c, n, i);
    }
  }

  lemma SkippedStep(host: Host, s: Arena, t: Arena, n: nat, edited: set<nat>, i: nat)
    requires Startable(host, s, n, edited) && Partway(host, s, t, n, i) && i < n && i !in edited
    ensures Partway(host, s, t, n, i + 1)
  {
    hide WellFormed, SafeName, Spoiled;
    assert Fine(host, s[i], i == 0);
    KeptStep(host, s, t, n, i);
  }

  lemma NothingTreated(host: Host, s: Arena, n: nat)
    requires WellFormed(s)
    ensures Partway(host, s, s, n, 0)
  {
  }

  // -- The result -------------------------------------------------------------------------

  /** The treated tree is one the writer accepts, parents first if they were. */
  lemma TreatedIsValid(host: Host, s: Arena, t: Arena, n: nat, edited: set<nat>)
    requires Startable(host, s, n, edited) && Partway(host, s, t, n, |s|)
    ensures ValidTree(host, t, false) && (ParentFirst(s) ==> ValidTree(host, t, true))
  {
    hide SafeName, Spoiled, Acyclic, Edges;
    forall i | 0 <= i < |t| ensures LinkOk(host, t, i, false) && (ParentFirst(s) ==> LinkOk(host, t, i, true)) {
      assert Fine(host, t[i], i == 0);
    }
  }

  // -- Totals --------------------------------------------------------------------------------

  /** Exact totals stay exact, and no file changes its size. */
  ghost predicate Sized(s: Arena, t: Arena)
  {
    Exact(s) ==> Exact(t) && |t| == |s| && forall i :: 0 <= i < |s| && !s[i].isDir ==> t[i].size == s[i].size
  }

  /** The same nodes but for names, times and a file's unused count. */
  ghost predicate Restated(s: Arena, t: Arena)
  {
    |t| == |s| && forall i :: 0 <= i < |s| ==> t[i] == s[i].(name := t[i].name, mtime := t[i].mtime, files := if IsDir(s, i) then s[i].files else t[i].files)
  }

  lemma {:induction false} RestatedIsExact(s: Arena, t: Arena)
    requires Exact(s) && Restated(s, t)
    ensures Exact(t)
  {
    hide Acyclic, Up;
    assert Edges(t) == Edges(s);
    forall d | IsDir(t, d) ensures t[d].size == BytesBelow(t, d) && t[d].files == FilesBelow(t, d) {
      SumEqual(|s|, BelowWeight(Edges(s), SizeWeight(s), d), BelowWeight(Edges(t), SizeWeight(t), d));
      SumEqual(|s|, BelowWeight(Edges(s), CountWeight(s), d), BelowWeight(Edges(t), CountWeight(t), d));
      assert IsDir(s, d);
    }
  }

  /** An exact count never exceeds the number of nodes, so clamping moves no total. */
  lemma {:induction false} ClampedIsRestated(s: Arena, i: nat)
    requires ExactTotals(s) && |s| <= MAX_U32 && i < |s|
    ensures Restated(s, s[i := Clamped(s[i])])
  {
    hide FilesBelow;
    if IsDir(s, i) {
      assert s[i].files == FilesBelow(s, i);
      FilesBounded(s, i);
    }
  }

  lemma {:induction false} TreatedSized(host: Host, s: Arena, t: Arena, n: nat, i: nat)
    requires Sized(s, t) && Thinned(s, t) && |s| <= PARENT_LIMIT && i < |s|
    ensures Sized(s, Treated(host, t, n, i))
  {
    hide ExactTotals, Shallow, WellFormed, Spelled, Removed;
    if Exact(s) {
      var c := t[i := Clamped(t[i])];
      ClampedIsRestated(t, i);
      RestatedIsExact(t, c);
      if i != 0 && n <= i && !Spelled(host, t[i].name) {
        var r := if c[i].used then Removed(c, i) else c;
        if c[i].used { RemoveKeepsExact(c, i); }
        RestatedIsExact(r, r[i := r[i].(name := PLACEHOLDER)]);
      }
    }
  }

  lemma SizedAtFirst(s: Arena)
    ensures Sized(s, s)
  {
  }

  // -- The gaps ---------------------------------------------------------------------------

  /** A candidate still alive when its turn comes, whose name is lost. */
  ghost predicate Dropped(host: Host, s: Arena, n: nat, j: nat)
  {
    Bad(host, s, n, j) && s[j].used && !Spoiled(host, s, n, j, j)
  }

  ghost function GapAt(s: Arena, mount: seq<Name>, d: nat): (r: seq<Place>)
  {
    match PathOf(s, d)
    case None => []
    case Some(names) => [Place(true, mount + names)]
  }

  /** The places of the directories the first candidates are dropped from, in id order, where they have a path. */
  ghost function NewGaps(host: Host, s: Arena, n: nat, mount: seq<Name>, upTo: nat): (r: seq<Place>)
    requires upTo <= |s|
  {
    if upTo == 0 then []
    else NewGaps(host, s, n, mount, upTo - 1) + if Dropped(host, s, n, upTo - 1) then GapAt(s, mount, s[upTo - 1].parent) else []
  }

  /** A live node lies where it always lay. */
  lemma {:induction false} PlacesSurvive(host: Host, s: Arena, t: Arena, n: nat, upTo: nat, i: nat, fuel: nat)
    requires WellFormed(s) && Partway(host, s, t, n, upTo) && Valid(t, i)
    ensures PathFrom(t, i, fuel) == PathFrom(s, i, fuel)
    decreases fuel
  {
    hide Spoiled, Fine, Acyclic;
    if fuel > 0 && i != 0 {
      assert IsDir(t, t[i].parent);
      PlacesSurvive(host, s, t, n, upTo, t[i].parent, fuel - 1);
    }
  }

  /** A slot the writer could not take as it is. */
  ghost predicate Unfit(host: Host, s: Arena, n: nat, i: nat)
  {
    i < |s| && (s[i].mtime > MAX_U32 || s[i].files > MAX_U32 || Bad(host, s, n, i))
  }

  /** An unfit slot is changed for good. */
  lemma UnfitIsChanged(host: Host, s: Arena, t: Arena, n: nat, i: nat, upTo: nat)
    requires Partway(host, s, t, n, upTo) && i < upTo && Unfit(host, s, n, i) && host.utf8(PLACEHOLDER)
    ensures t != s
  {
    hide WellFormed, Spoiled;
    assert Fine(host, t[i], i == 0);
  }

  lemma FitIsUntouched(host: Host, s: Arena, t: Arena, n: nat, i: nat)
    requires Partway(host, s, t, n, i) && i < |s|
    ensures !Unfit(host, t, n, i) ==> Treated(host, t, n, i) == t
    ensures Unfit(host, t, n, i) ==> Unfit(host, s, n, i)
  {
    hide WellFormed, Spoiled, Removed, Spelled, Fine;
  }

  /** Treats the edited and appended nodes of a private copy in id order, and marks the directories nodes are dropped from. */
  method QuarantineUnrepresentable(host: Host, t: SizeTree) returns (out: SizeTree, fixed: nat)
    requires t.Ok() && Startable(host, t.Slots(), t.BaseCount(), t.overrides.Keys)
    ensures fresh(out) && out.Ok()
    ensures ValidTree(host, out.Slots(), false) && (ParentFirst(t.Slots()) ==> ValidTree(host, out.Slots(), true))
    ensures Partway(host, t.Slots(), out.Slots(), t.BaseCount(), |t.Slots()|)
    ensures Sized(t.Slots(), out.Slots())
    ensures fixed == 0 <==> out.Slots() == t.Slots()
    ensures out.blocked == t.blocked + NewGaps(host, t.Slots(), t.BaseCount(), t.mount, |t.Slots()|)
  {
    hide WellFormed, Partway, Thinned, Fine, Overlay, ValidTree, RowOf, RowsFit, CachesFit, Treated, Representable, Unfit, Dropped, GapAt, Startable, SizeTree.Ok, SizeTree.Slots, Sized;
    ghost var s := t.Slots();
    StartsAsTree(host, s, t.BaseCount(), t.overrides.Keys);
    out := t.Clone();
    var edited := t.overrides.Keys;
    var n := out.BaseCount();
    fixed := 0;
    NothingTreated(host, s, n);
    SizedAtFirst(s);
    ghost var changedAt := 0;
    for i := 0 to out.NodeCount()
      invariant fresh(out) && out.Ok() && out.NodeCount() == |s| && out.BaseCount() == n == t.BaseCount()
      invariant Partway(host, s, out.Slots(), n, i) && Sized(s, out.Slots())
      invariant if fixed == 0 then out.Slots() == s else changedAt < i && Unfit(host, s, n, changedAt)
      invariant out.blocked == t.blocked + NewGaps(host, s, n, t.mount, i) && out.mount == t.mount
    {
      if i in edited || n <= i {
        ghost var before := out.Slots();
        TreatedStep(host, s, before, n, edited, i);
        ThinSoFar(host, s, before, n, i);
        TreatedSized(host, s, before, n, i);
        FitIsUntouched(host, s, before, n, i);
        var repairs := Treat(host, out, n, i, s);
        if repairs > 0 { changedAt := i; }
        fixed := fixed + repairs;
      } else {
        SkippedStep(host, s, out.Slots(), n, edited, i);
        BaseIsKept(host, s, n, i);
      }
    }
    TreatedIsValid(host, s, out.Slots(), n, edited);
    if fixed > 0 { UnfitIsChanged(host, s, out.Slots(), n, changedAt, |s|); }
  }

  lemma ThinSoFar(host: Host, s: Arena, t: Arena, n: nat, i: nat)
    requires Partway(host, s, t, n, i)
    ensures Thinned(s, t)
  {
  }

  lemma StartsAsTree(host: Host, s: Arena, n: nat, edited: set<nat>)
    requires Startable(host, s, n, edited)
    ensures WellFormed(s) && host.utf8(PLACEHOLDER) && |s| <= PARENT_LIMIT
  {
  }

  lemma BaseIsKept(host: Host, s: Arena, n: nat, i: nat)
    requires i < n
    ensures !Dropped(host, s, n, i)
  {
  }

  /** One candidate's turn. */
  method Treat(host: Host, out: SizeTree, n: nat, i: nat, ghost s: Arena) returns (repairs: nat)
    requires out.Ok() && n == out.BaseCount() && i < out.NodeCount() == |s| && WellFormed(s)
    requires Partway(host, s, out.Slots(), n, i) && |out.Slots()| == |s|
    modifies out`overrides, out`entries, out`childNames, out`ancestorStamp, out`ancestorGen, out`blocked
    ensures out.Ok() && out.NodeCount() == |s|
    ensures out.Slots() == Treated(host, old(out.Slots()), n, i)
    ensures repairs > 0 <==> Unfit(host, old(out.Slots()), n, i)
    ensures out.blocked == old(out.blocked) + if Dropped(host, s, n, i) then GapAt(s, out.mount, s[i].parent) else []
  {
    hide WellFormed, Overlay, RowOf, RowsFit, CachesFit, Fine, Removed, Reaches, Edges, Spoiled, Partway, SafeName, GapAt, Representable, Dropped;
    ghost var before := out.Slots();
    ClampKeeps(host, s, before, n, i);
    repairs := Clamp(out, i);
    ghost var c := out.Slots();
    DroppedIsAlive(host, s, c, n, i);
    if i == 0 || i < n || Spelled(host, out.At(i).name) {
      return;
    }
    if out.At(i).used {
      PartwayIsTree(host, s, c, n, i);
      Note(host, out, n, i, s);
      Drop(out, i);
    }
    out.RenameTombstone(i, PLACEHOLDER);
    repairs := repairs + 1;
  }

  /** A candidate is dropped when its name is lost and nothing took it before. */
  lemma DroppedIsAlive(host: Host, s: Arena, t: Arena, n: nat, i: nat)
    requires Partway(host, s, t, n, i) && i < |s|
    ensures t[i].parent == s[i].parent
    ensures Dropped(host, s, n, i) <==> n <= i && i != 0 && !Spelled(host, t[i].name) && t[i].used
  {
    hide Spoiled, WellFormed, Fine, Spelled;
  }

  /** Marks the directory a node is about to be dropped from, if it has a path. */
  method Note(host: Host, out: SizeTree, ghost n: nat, i: nat, ghost s: Arena)
    requires out.Ok() && i < out.NodeCount() && WellFormed(s) && Partway(host, s, out.Slots(), n, i) && out.Live(i) && i != 0
    modifies out`blocked
    ensures out.Ok() && out.Slots() == old(out.Slots())
    ensures out.blocked == old(out.blocked) + GapAt(s, out.mount, out.At(i).parent)
  {
    hide WellFormed, Overlay, RowOf, RowsFit, CachesFit, Fine, Edges, Spoiled, Partway, out.Shaped;
    var p := out.At(i).parent;
    ParentLives(host, s, out.Slots(), n, i);
    PlacesSurvive(host, s, out.Slots(), n, i, p, PATH_LIMIT);
    var path := out.FindPath(p);
    if path.Some? { out.blocked := out.blocked + [Place(true, out.mount + path.value)]; }
  }

  lemma ParentLives(host: Host, s: Arena, t: Arena, n: nat, i: nat)
    requires Partway(host, s, t, n, i) && Valid(t, i) && i != 0
    ensures Valid(t, t[i].parent) && Valid(s, t[i].parent)
  {
    hide Spoiled, Fine, Acyclic;
  }

  /** Times and counts saturate at what the format holds. */
  method Clamp(out: SizeTree, i: nat) returns (repairs: nat)
    requires out.Ok() && i < out.NodeCount()
    modifies out`overrides, out`entries
    ensures out.Ok() && out.NodeCount() == old(out.NodeCount())
    ensures out.Slots() == old(out.Slots())[i := Clamped(old(out.Slots())[i])]
    ensures repairs > 0 <==> old(out.Slots())[i].mtime > MAX_U32 || old(out.Slots())[i].files > MAX_U32
  {
    hide WellFormed, Overlay, RowOf, RowsFit, CachesFit;
    var e := out.At(i);
    repairs := 0;
    if e.mtime > MAX_U32 || e.files > MAX_U32 {
      out.Restate(i, Clamped(e));
      repairs := 1;
    }
  }

  /** Removing a live node leaves it a tombstone. */
  method Drop(out: SizeTree, i: nat)
    requires out.Ok() && out.Live(i) && i != 0 && WellFormed(out.Slots())
    modifies out`overrides, out`entries, out`childNames, out`ancestorStamp, out`ancestorGen
    ensures out.Ok() && out.NodeCount() == old(out.NodeCount()) && Valid(old(out.Slots()), i)
    ensures out.Slots() == Removed(old(out.Slots()), i) && i < |out.Slots()| && !out.Slots()[i].used
  {
    hide WellFormed, Overlay, RowOf, RowsFit, CachesFit, Removed, AtOrBelow;
    RemovedSlots(out.Slots(), i);
    SelfBelow(out.Slots(), i);
    out.RemoveSubtreeInplace(i);
  }

  lemma PartwayIsTree(host: Host, s: Arena, t: Arena, n: nat, i: nat)
    requires Partway(host, s, t, n, i)
    ensures WellFormed(t)
  {
  }

  // -- Who is told of a gap ------------------------------------------------------------------

  /** A place of this directory is among the gaps. */
  ghost predicate Marks(s: Arena, mount: seq<Name>, gaps: seq<Place>, d: nat)
  {
    PathOf(s, d).Some? && Place(true, mount + PathOf(s, d).value) in gaps
  }

  /** The node went with one that was dropped, and the directory that one was dropped from is marked. */
  ghost predicate Told(host: Host, s: Arena, n: nat, mount: seq<Name>, gaps: seq<Place>, i: nat)
  {
    exists j: nat :: Dropped(host, s, n, j) && AtOrBelow(Edges(s), i, j) && Marks(s, mount, gaps, s[j].parent)
  }

  /** A live node whose name is lost, below no other such. */
  ghost predicate Topmost(host: Host, s: Arena, n: nat, j: nat)
  {
    Bad(host, s, n, j) && s[j].used && forall k: nat :: Reaches(Edges(s), j, k) ==> !Bad(host, s, n, k)
  }

  /** A directory whose marking reaches a reader: at most 512 levels down, below and with no backslash in a name. */
  ghost predicate Markable(s: Arena, d: nat)
    requires d < |s|
  {
    Up(Edges(s), d, PATH_LIMIT).None? && forall k: nat :: k != 0 && AtOrBelow(Edges(s), d, k) ==> k < |s| && 92 !in s[k].name
  }

  lemma ParentOf(s: Arena, j: nat)
    requires WellFormed(s) && Valid(s, j) && j != 0
    ensures Valid(s, s[j].parent) && Edges(s)[j] == Some(s[j].parent as nat) && Reaches(Edges(s), j, s[j].parent)
    ensures forall k: nat :: Reaches(Edges(s), j, k) <==> AtOrBelow(Edges(s), s[j].parent, k)
  {
    hide Acyclic, Reaches;
    var e := Edges(s);
    assert e[j] == Some(s[j].parent as nat);
    EdgeReaches(e, j, s[j].parent);
    forall k: nat ensures Reaches(e, j, k) <==> AtOrBelow(e, s[j].parent, k) { ReachesFirstStep(e, j, k); }
  }

  /** Each drop marks its directory. */
  lemma {:induction false} GapIsNew(host: Host, s: Arena, n: nat, mount: seq<Name>, j: nat, upTo: nat)
    requires j < upTo <= |s| && Dropped(host, s, n, j) && PathOf(s, s[j].parent).Some?
    ensures Marks(s, mount, NewGaps(host, s, n, mount, upTo), s[j].parent)
  {
    hide Dropped, PathOf;
    if j < upTo - 1 { GapIsNew(host, s, n, mount, j, upTo - 1); }
  }

  /** The directory a node was dropped from is marked exactly when it is at most 512 levels down by names that may be joined. */
  lemma {:induction false} ParentIsMarked(host: Host, s: Arena, n: nat, mount: seq<Name>, known: seq<Place>, j: nat)
    requires WellFormed(s) && Dropped(host, s, n, j)
    ensures Valid(s, s[j].parent)
    ensures Marks(s, mount, known + NewGaps(host, s, n, mount, |s|), s[j].parent) <==> HasPath(s, s[j].parent, PATH_LIMIT)
  {
    hide WellFormed, Spoiled, Spelled, HasPath, NewGaps, Reaches, Edges;
    ParentOf(s, j);
    PathIsFound(s, s[j].parent, PATH_LIMIT);
    if PathOf(s, s[j].parent).Some? { GapIsNew(host, s, n, mount, j, |s|); }
  }

  lemma NotBelowItself(s: Arena, k: nat)
    requires WellFormed(s) && k < |s|
    ensures !Reaches(Edges(s), k, k)
  {
    hide Reaches;
    assert !OnCycle(Edges(s), k);
  }

  /** Above every live node that is spoiled stands a topmost lost name. */
  lemma {:induction false} TopmostAbove(host: Host, s: Arena, n: nat, i: nat, j: nat) returns (top: nat)
    requires WellFormed(s) && Valid(s, i) && Bad(host, s, n, j) && AtOrBelow(Edges(s), i, j)
    ensures Topmost(host, s, n, top) && AtOrBelow(Edges(s), i, top)
    decreases set d: nat | d < |s| && Reaches(Edges(s), j, d)
  {
    hide Spelled, Reaches, Edges;
    AboveIsLive(s, i, j);
    if k: nat :| Reaches(Edges(s), j, k) && Bad(host, s, n, k) {
      if i != j { ReachesTransitive(Edges(s), i, j, k); }
      forall d: nat | Reaches(Edges(s), k, d) ensures Reaches(Edges(s), j, d) { ReachesTransitive(Edges(s), j, k, d); }
      NotBelowItself(s, k);
      var above := set d: nat | d < |s| && Reaches(Edges(s), j, d);
      assert k in above;
      top := TopmostAbove(host, s, n, i, k);
    } else {
      top := j;
    }
  }

  lemma TopmostIsDropped(host: Host, s: Arena, n: nat, j: nat)
    requires WellFormed(s) && Topmost(host, s, n, j)
    ensures Dropped(host, s, n, j)
  {
    hide WellFormed, Spelled, Reaches, Edges;
  }

  /** The names above a topmost lost name are all the format's own; only a backslash keeps one from being joined. */
  lemma NamesAboveJoin(host: Host, s: Arena, n: nat, edited: set<nat>, j: nat)
    requires Startable(host, s, n, edited) && Topmost(host, s, n, j)
    ensures Valid(s, s[j].parent) && (HasPath(s, s[j].parent, PATH_LIMIT) <==> Markable(s, s[j].parent))
  {
    hide WellFormed, Reaches, Edges, Up;
    ParentOf(s, j);
    forall k: nat | k != 0 && AtOrBelow(Edges(s), s[j].parent, k) ensures k < |s| && (Joinable(s[k].name) <==> 92 !in s[k].name) {
      AboveIsLive(s, j, k);
      assert SafeName(host, s[k].name) by {
        if k < n { assert Fine(host, Clamped(s[k]), k == 0); }
      }
    }
  }

  /** What has a path lies below what has one. */
  lemma HigherHasPath(s: Arena, d: nat, u: nat, fuel: nat)
    requires WellFormed(s) && Valid(s, d) && AtOrBelow(Edges(s), d, u) && HasPath(s, d, fuel)
    ensures u < |s| && HasPath(s, u, fuel)
  {
    hide WellFormed, Joinable, Reaches, Edges, Up;
    var e := Edges(s);
    AboveIsLive(s, d, u);
    if d != u {
      forall k: nat | k != 0 && AtOrBelow(e, u, k) ensures k < |s| && Joinable(s[k].name) {
        if k != u { ReachesTransitive(e, d, u, k); }
        assert AtOrBelow(e, d, k);
      }
      HigherIsShorter(e, d, u, fuel);
    }
  }

  lemma {:induction false} HigherIsShorter(e: Graph, d: nat, u: nat, fuel: nat)
    requires Reaches(e, d, u) && u < |e| && Up(e, d, fuel).None?
    ensures Up(e, u, fuel).None?
  {
    var a: nat :| a >= 1 && Up(e, d, a) == Some(u);
    UpCompose(e, d, u, a, fuel);
    if Up(e, u, fuel).Some? { UpPrefix(e, d, fuel, a + fuel); }
  }

  /** A spoiled node is told of exactly when the topmost lost name above it was dropped from a directory that can be marked. */
  lemma {:induction false} ToldByTopmost(host: Host, s: Arena, n: nat, edited: set<nat>, mount: seq<Name>, known: seq<Place>, i: nat, top: nat)
    requires Startable(host, s, n, edited) && Valid(s, i) && Topmost(host, s, n, top) && AtOrBelow(Edges(s), i, top)
    ensures Valid(s, s[top].parent)
    ensures Told(host, s, n, mount, known + NewGaps(host, s, n, mount, |s|), i) <==> Markable(s, s[top].parent)
  {
    hide WellFormed, Spelled, Spoiled, HasPath, Markable, NewGaps, Marks, Reaches, Edges, Fine;
    var e, gaps := Edges(s), known + NewGaps(host, s, n, mount, |s|);
    TopmostIsDropped(host, s, n, top);
    ParentIsMarked(host, s, n, mount, known, top);
    NamesAboveJoin(host, s, n, edited, top);
    if Told(host, s, n, mount, gaps, i) {
      var j: nat :| Dropped(host, s, n, j) && AtOrBelow(e, i, j) && Marks(s, mount, gaps, s[j].parent);
      ParentIsMarked(host, s, n, mount, known, j);
      ChainLinear(e, i, j, top);
      ParentsNest(s, j, top);
      HigherHasPath(s, s[j].parent, s[top].parent, PATH_LIMIT);
    }
  }

  lemma ParentsNest(s: Arena, j: nat, top: nat)
    requires WellFormed(s) && Valid(s, j) && j != 0 && Valid(s, top) && top != 0 && AtOrBelow(Edges(s), j, top)
    ensures Valid(s, s[j].parent) && AtOrBelow(Edges(s), s[j].parent, s[top].parent)
  {
    hide WellFormed, Reaches, Edges;
    ParentOf(s, j);
    ParentOf(s, top);
    if j != top { ReachesTransitive(Edges(s), j, top, s[top].parent); }
  }

  /**
   * When the repair keeps its promise: the directory of a dropped node is marked exactly when it has a path; a node that
   * went is told of exactly when the directory of the topmost lost name above it is at most 512 levels down and under no
   * name with a backslash; and every one is exactly when all those directories are.
   */
  lemma {:induction false} GapsAreTold(host: Host, s: Arena, t: Arena, n: nat, edited: set<nat>, mount: seq<Name>, known: seq<Place>)
    requires Startable(host, s, n, edited) && Partway(host, s, t, n, |s|)
    ensures var gaps := known + NewGaps(host, s, n, mount, |s|);
      && (forall j: nat :: j < |s| && Dropped(host, s, n, j) ==>
            s[j].parent < |s| && (Marks(s, mount, gaps, s[j].parent) <==> HasPath(s, s[j].parent, PATH_LIMIT)))
      && (forall i: nat, top: nat :: Valid(s, i) && top < |s| && Topmost(host, s, n, top) && AtOrBelow(Edges(s), i, top) ==>
            !t[i].used && s[top].parent < |s| && (Told(host, s, n, mount, gaps, i) <==> Markable(s, s[top].parent)))
      && ((forall i: nat :: Valid(s, i) && !t[i].used ==> Told(host, s, n, mount, gaps, i)) <==>
          (forall j: nat :: j < |s| && Topmost(host, s, n, j) ==> s[j].parent < |s| && Markable(s, s[j].parent)))
  {
    hide WellFormed, Spelled, Dropped, Topmost, HasPath, Markable, NewGaps, Marks, Told, Reaches, Edges, Fine, Spoiled;
    var gaps := known + NewGaps(host, s, n, mount, |s|);
    forall j: nat | j < |s| && Dropped(host, s, n, j)
      ensures s[j].parent < |s| && (Marks(s, mount, gaps, s[j].parent) <==> HasPath(s, s[j].parent, PATH_LIMIT))
    {
      ParentIsMarked(host, s, n, mount, known, j);
    }
    forall i: nat, top: nat | Valid(s, i) && top < |s| && Topmost(host, s, n, top) && AtOrBelow(Edges(s), i, top)
      ensures !t[i].used && s[top].parent < |s| && (Told(host, s, n, mount, gaps, i) <==> Markable(s, s[top].parent))
    {
      ToldByTopmost(host, s, n, edited, mount, known, i, top);
      TopmostSpoils(host, s, n, i, top);
    }
    forall i: nat | Valid(s, i) && !t[i].used ensures exists top: nat :: top < |s| && Topmost(host, s, n, top) && AtOrBelow(Edges(s), i, top) {
      var top := TopmostOf(host, s, n, i);
    }
    forall j: nat | j < |s| && Topmost(host, s, n, j) ensures Valid(s, j) && AtOrBelow(Edges(s), j, j) { TopmostLives(host, s, n, j); }
  }

  lemma TopmostOf(host: Host, s: Arena, n: nat, i: nat) returns (top: nat)
    requires WellFormed(s) && Valid(s, i) && Spoiled(host, s, n, i, |s|)
    ensures top < |s| && Topmost(host, s, n, top) && AtOrBelow(Edges(s), i, top)
  {
    hide WellFormed, Spelled, Reaches, Edges;
    var j: nat :| j < |s| && Bad(host, s, n, j) && AtOrBelow(Edges(s), i, j);
    top := TopmostAbove(host, s, n, i, j);
  }

  lemma TopmostSpoils(host: Host, s: Arena, n: nat, i: nat, top: nat)
    requires Topmost(host, s, n, top) && AtOrBelow(Edges(s), i, top)
    ensures Spoiled(host, s, n, i, |s|)
  {
  }

  lemma TopmostLives(host: Host, s: Arena, n: nat, j: nat)
    requires Topmost(host, s, n, j)
    ensures Valid(s, j) && AtOrBelow(Edges(s), j, j)
  {
    hide Spelled;
  }

  /** Where names hold no backslash and directories are shallow, nothing is dropped in silence. */
  lemma {:induction false} ShallowIsTold(host: Host, s: Arena, t: Arena, n: nat, edited: set<nat>, mount: seq<Name>, known: seq<Place>, i: nat)
    requires Startable(host, s, n, edited) && Partway(host, s, t, n, |s|) && Valid(s, i) && !t[i].used
    requires forall d: nat :: IsDir(s, d) && d != 0 ==> 92 !in s[d].name
    requires forall d: nat :: IsDir(s, d) ==> Up(Edges(s), d, PATH_LIMIT).None?
    ensures Told(host, s, n, mount, known + NewGaps(host, s, n, mount, |s|), i)
  {
    hide WellFormed, Spelled, Spoiled, NewGaps, Marks, Told, Reaches, Edges, Fine, Up;
    var top := TopmostOf(host, s, n, i);
    ToldByTopmost(host, s, n, edited, mount, known, i, top);
    ParentOf(s, top);
    var d: nat := s[top].parent;
    DirsAbove(s, top);
  }

  lemma DirsAbove(s: Arena, j: nat)
    requires WellFormed(s) && Valid(s, j) && j != 0
    ensures IsDir(s, s[j].parent) && forall k: nat :: AtOrBelow(Edges(s), s[j].parent, k) ==> IsDir(s, k)
  {
    hide Acyclic, Reaches;
    forall k: nat | AtOrBelow(Edges(s), s[j].parent, k) ensures IsDir(s, k) {
      if k != s[j].parent {
        var c := ReachesLastStep(Edges(s), s[j].parent, k);
        assert HeapEdge(s, c) == Some(k);
      }
    }
  }

  const SILENT: Arena := [Slot(0, [], true, 0, true, 0, 1), Slot(0, [97, 92, 98], true, 0, true, 0, 1), Slot(1, [98, 255], false, 0, true, 0, 0)]

  /** A file whose name is no UTF-8 in a directory called a\b, which such hosts allow: the repair drops the file and marks nothing. */
  lemma {:induction false} GapCanBeSilent(host: Host, t: Arena, mount: seq<Name>)
    requires !host.backslash && host.utf8([]) && host.utf8([97, 92, 98]) && !host.utf8([98, 255]) && host.utf8(PLACEHOLDER)
    ensures Startable(host, SILENT, 0, {})
    ensures Partway(host, SILENT, t, 0, |SILENT|) ==> !t[2].used && NewGaps(host, SILENT, 0, mount, |SILENT|) == []
  {
    hide Up, Reaches;
    var s, e := SILENT, Edges(SILENT);
    assert !Joinable(s[1].name);
    BackwardIsAcyclic(s);
    assert Spelled(host, s[1].name) && !Bad(host, s, 0, 1) && Bad(host, s, 0, 2);
    assert PathFrom(s, 1, PATH_LIMIT) == Entered(PathFrom(s, 0, PATH_LIMIT - 1), s[1].name);
    assert GapAt(s, mount, s[2].parent) == [];
    assert AtOrBelow(e, 2, 2);
    assert Spoiled(host, s, 0, 2, 3);
    assert !Dropped(host, s, 0, 0) && !Dropped(host, s, 0, 1);
    assert NewGaps(host, s, 0, mount, 0) == [];
    assert NewGaps(host, s, 0, mount, 1) == [];
    assert NewGaps(host, s, 0, mount, 2) == [];
  }
}
