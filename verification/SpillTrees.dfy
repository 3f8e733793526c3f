/** Appending a spilled scan record by record, against materialising its tree and grafting that. */
module SpillTrees {
  import opened Words
  import opened Sums
  import opened Forest
  import opened Slots
  import opened Ancestors
  import opened Worklist
  import opened Edits
  import opened Grafting
  import opened ChildRows
  import opened Coverage
  import opened Validation
  import opened SizeTrees

  datatype Record = Record(parent: U32, isDir: bool, mtime: U32, size: U64, name: Name)

  // -- The tree a spill stands for -----------------------------------------------------

  function SpillSlot(r: Record): Slot
  {
    Slot(r.parent, r.name, r.isDir, if r.isDir then 0 else r.size, true, r.mtime, 0)
  }

  /** A root, then one node per record; record k is node k + 1. */
  function SpillSlots(rootName: Name, rootTime: U64, records: seq<Record>): (u: Arena)
    ensures |u| == |records| + 1 && u[0] == Slot(0, rootName, true, 0, true, rootTime, 0)
    ensures forall k :: 0 <= k < |records| ==> u[k + 1] == SpillSlot(records[k])
  {
    [Slot(0, rootName, true, 0, true, rootTime, 0)] + seq(|records|, (k: nat) requires k < |records| => SpillSlot(records[k]))
  }

  /** Record k names an earlier directory and carries a safe name. */
  predicate EntrySound(host: Host, records: seq<Record>, k: nat)
    requires k < |records|
  {
    var r := records[k];
    && r.parent <= k && (r.parent == 0 || records[r.parent - 1].isDir)
    && host.utf8(r.name) && SafeName(host, r.name)
  }

  ghost predicate SpillOk(host: Host, records: seq<Record>)
  {
    forall k :: 0 <= k < |records| ==> EntrySound(host, records, k)
  }

  /** Live nodes below live, earlier directories. */
  ghost predicate LiveParentFirst(u: Arena)
  {
    && 0 < |u| && IsDir(u, 0) && u[0].parent == 0 && ParentFirst(u)
    && forall i :: 0 < i < |u| ==> u[i].used && IsDir(u, u[i].parent)
  }

  lemma SpillIsParentsFirst(host: Host, rootName: Name, rootTime: U64, records: seq<Record>)
    requires SpillOk(host, records)
    ensures LiveParentFirst(SpillSlots(rootName, rootTime, records))
  {
    hide SafeName;
    var u := SpillSlots(rootName, rootTime, records);
    forall i: nat | 0 < i < |u| ensures u[i].used && u[i].parent < i && IsDir(u, u[i].parent) {
      assert EntrySound(host, records, i - 1);
      assert u[i] == SpillSlot(records[i - 1]);
      if u[i].parent > 0 { assert u[u[i].parent] == SpillSlot(records[u[i].parent - 1]); }
    }
  }

  lemma ParentsFirstIsTree(u: Arena)
    requires LiveParentFirst(u)
    ensures WellFormed(u) && forall i: nat :: 0 < i < |u| ==> HeapEdge(u, i) == Some(u[i].parent as nat)
  {
    BackwardIsAcyclic(u);
  }

  lemma NotOnCycle(u: Arena, d: nat)
    requires WellFormed(u) && d < |u|
    ensures !OnCycle(Edges(u), d)
  {
    hide OnCycle;
  }

  // -- Rolling up in reverse -----------------------------------------------------------------

  ghost function Above(i: nat, n: nat): (r: set<nat>)
    ensures forall c: nat :: c in r <==> i < c < n
  {
    Range(n) - Range(i + 1)
  }

  /** Directories hold what the nodes above k have passed on. */
  ghost predicate RolledDown(u: Arena, v: Arena, k: nat)
  {
    && |v| == |u| && k <= |u|
    && forall d :: 0 <= d < |u| ==> DirHolds(u, v, d, k)
  }

  ghost predicate DirHolds(u: Arena, v: Arena, d: nat, k: nat)
    requires d < |u| == |v|
  {
    if u[d].isDir then
      v[d] == u[d].(size := v[d].size, files := v[d].files)
      && v[d].size == Received(Edges(u), SizeWeight(u), d, Above(k, |u|)) && v[d].files == Received(Edges(u), CountWeight(u), d, Above(k, |u|))
    else v[d] == u[d]
  }

  /** Above a node stand all its children. */
  lemma ChildrenAbove(u: Arena, i: nat, w: nat -> nat)
    requires LiveParentFirst(u) && i < |u|
    ensures Received(Edges(u), w, i, Above(i, |u|)) == Total(Edges(u), w, i)
  {
    hide Total, Received, OnCycle;
    ParentsFirstIsTree(u);
    forall c: nat | ChildOf(Edges(u), c, i) ensures c in Above(i, |u|) {
      assert HeapEdge(u, c) == Some(i);
    }
    TotalByChildren(Edges(u), w, i, Above(i, |u|));
  }

  /** Node i's own weight and everything below it, as the roll-up finds it. */
  lemma NodeCarries(u: Arena, v: Arena, i: nat)
    requires LiveParentFirst(u) && 0 < i < |u| && RolledDown(u, v, i)
    ensures v[i].size == Branch(Edges(u), SizeWeight(u), i)
    ensures (if v[i].isDir then v[i].files else 1) == Branch(Edges(u), CountWeight(u), i)
  {
    hide Total, Received, OnCycle, Reaches;
    assert DirHolds(u, v, i, i);
    if u[i].isDir {
      ChildrenAbove(u, i, SizeWeight(u));
      ChildrenAbove(u, i, CountWeight(u));
    } else {
      NothingBelowFile(u, SizeWeight(u), i);
      NothingBelowFile(u, CountWeight(u), i);
    }
  }

  /** Passing node i on to its parent. */
  function PassedOn(v: Arena, i: nat): (w: Arena)
    requires i < |v| && v[i].parent < |v|
    ensures |w| == |v|
  {
    var p := v[i].parent;
    v[p := v[p].(size := (v[p].size + v[i].size) % TWO_TO_THE_64, files := (v[p].files + (if v[i].isDir then v[i].files else 1)) % TWO_TO_THE_64)]
  }

  lemma AboveNext(i: nat, n: nat)
    requires 0 < i < n
    ensures Above(i - 1, n) == Above(i, n) + {i} && i !in Above(i, n)
  {
  }

  lemma PassesOn(u: Arena, v: Arena, i: nat)
    requires LiveParentFirst(u) && 0 < i < |u| && RolledDown(u, v, i) && BytesBelow(u, 0) <= MAX_U64 && |u| <= MAX_U32
    ensures v[i].parent < i && RolledDown(u, PassedOn(v, i), i - 1)
  {
    hide Received, OnCycle, Reaches, BytesBelow, Branch, Edges, Above;
    ParentsFirstIsTree(u);
    NodeCarries(u, v, i);
    assert DirHolds(u, v, i, i);
    var p := u[i].parent;
    assert DirHolds(u, v, p, i);
    AboveNext(i, |u|);
    HasRoom(u, p, i - 1);
    var v', k := PassedOn(v, i), i - 1;
    forall d: nat | d < |u| ensures DirHolds(u, v', d, k) {
      assert DirHolds(u, v, d, i);
      OneMore(u, d, i);
    }
  }

  lemma OneMore(u: Arena, d: nat, i: nat)
    requires LiveParentFirst(u) && 0 < i < |u| && d < |u|
    ensures Received(Edges(u), SizeWeight(u), d, Above(i - 1, |u|)) == Received(Edges(u), SizeWeight(u), d, Above(i, |u|)) + (if u[i].parent == d then Branch(Edges(u), SizeWeight(u), i) else 0)
    ensures Received(Edges(u), CountWeight(u), d, Above(i - 1, |u|)) == Received(Edges(u), CountWeight(u), d, Above(i, |u|)) + (if u[i].parent == d then Branch(Edges(u), CountWeight(u), i) else 0)
  {
    hide Received, Branch;
    AboveNext(i, |u|);
    ParentsFirstIsTree(u);
    assert Edges(u)[i] == HeapEdge(u, i);
    ReceivedOne(Edges(u), SizeWeight(u), i, d, Above(i, |u|));
    ReceivedOne(Edges(u), CountWeight(u), i, d, Above(i, |u|));
  }

  /** No partial sum exceeds the total of the whole tree. */
  lemma HasRoom(u: Arena, d: nat, k: nat)
    requires LiveParentFirst(u) && d < |u| && u[d].isDir && BytesBelow(u, 0) <= MAX_U64 && |u| <= MAX_U32
    ensures Received(Edges(u), SizeWeight(u), d, Above(k, |u|)) <= MAX_U64 && Received(Edges(u), CountWeight(u), d, Above(k, |u|)) <= MAX_U64
  {
    hide OnCycle, Reaches, Received, Total;
    ParentsFirstIsTree(u);
    LiveBelowRoot(u, d);
    TotalMonotone(u, SizeWeight(u), d, 0);
    FilesBounded(u, d);
    AtMostTotal(u, SizeWeight(u), d, k);
    AtMostTotal(u, CountWeight(u), d, k);
  }

  lemma AtMostTotal(u: Arena, w: nat -> nat, d: nat, k: nat)
    requires LiveParentFirst(u) && d < |u|
    ensures Received(Edges(u), w, d, Above(k, |u|)) <= Total(Edges(u), w, d)
  {
    hide Branch, Total, OnCycle;
    var e, all := Edges(u), Range(|u|);
    ParentsFirstIsTree(u);
    TotalByChildren(e, w, d, all);
    forall c: nat | c < |e| ensures ChildBranch(e, w, d, Above(k, |u|))(c) <= ChildBranch(e, w, d, all)(c) {
    }
    SumMonotone(|e|, ChildBranch(e, w, d, Above(k, |u|)), ChildBranch(e, w, d, all));
  }

  lemma RollStarts(u: Arena)
    requires forall d :: 0 <= d < |u| ==> u[d].isDir ==> u[d].size == 0 && u[d].files == 0
    ensures 0 < |u| ==> RolledDown(u, u, |u| - 1)
  {
    hide Received, Above, Edges;
    if 0 < |u| {
      var k := |u| - 1;
      forall d: nat | d < |u| ensures DirHolds(u, u, d, k) {
        ReceivedNone(Edges(u), SizeWeight(u), d, Above(k, |u|));
        ReceivedNone(Edges(u), CountWeight(u), d, Above(k, |u|));
      }
    }
  }

  lemma ReceivedNone(e: Graph, w: nat -> nat, d: nat, done: set<nat>)
    requires forall c: nat :: c < |e| ==> c !in done
    ensures Received(e, w, d, done) == 0
  {
    hide Branch;
    SumZero(|e|, ChildBranch(e, w, d, done));
  }

  /** The reverse pass ends at the roll-up the worklist computes. */
  lemma RollEnds(u: Arena, v: Arena)
    requires LiveParentFirst(u) && RolledDown(u, v, 0) && BytesBelow(u, 0) <= MAX_U64 && |u| <= MAX_U32
    ensures v == RollUp(u)
  {
    hide Received, RolledDir, BytesBelow, FilesBelow, OnCycle;
    ParentsFirstIsTree(u);
    RollUpIsSame(u);
    forall d: nat | d < |u| ensures v[d] == RollUp(u)[d] {
      assert DirHolds(u, v, d, 0);
      if u[d].isDir { EndAt(u, d); }
    }
  }

  lemma RollUpIsSame(u: Arena)
    ensures forall d :: 0 <= d < |u| ==> RollUp(u)[d] == if u[d].isDir then u[d].(size := RollUp(u)[d].size, files := RollUp(u)[d].files) else u[d]
  {
    hide Received;
  }

  lemma EndAt(u: Arena, d: nat)
    requires LiveParentFirst(u) && d < |u| && u[d].isDir && BytesBelow(u, 0) <= MAX_U64 && |u| <= MAX_U32
    ensures RollUp(u)[d].size == Received(Edges(u), SizeWeight(u), d, Above(0, |u|)) && RollUp(u)[d].files == Received(Edges(u), CountWeight(u), d, Above(0, |u|))
  {
    hide Received, Total, OnCycle, RolledDir;
    ParentsFirstIsTree(u);
    HasRoom(u, d, 0);
    forall c: nat | ChildOf(Edges(u), c, d) ensures c in Above(0, |u|) { assert HeapEdge(u, c) == Some(d); }
    TotalByChildren(Edges(u), SizeWeight(u), d, Above(0, |u|));
    TotalByChildren(Edges(u), CountWeight(u), d, Above(0, |u|));
    assert !OnCycle(Edges(u), d);
    RollUpIsExact(u, d);
  }

  // -- Appending -----------------------------------------------------------------------------------

  /** Where node i of the spill lands. */
  function Landed(u: Arena, start: nat, p: U32, i: nat): Slot
    requires i < |u| && start + |u| <= MAX_U32
  {
    u[i].(parent := if i == 0 then p else Clip(start + u[i].parent))
  }

  function Clip(v: nat): U32
  {
    if v > MAX_U32 then MAX_U32 else v
  }

  lemma {:induction false} AllLive(u: Arena, n: nat)
    requires n <= |u| && forall i :: 0 <= i < |u| ==> u[i].used
    ensures Rank(u, n) == n && LiveIds(u, n) == seq(n, i => i)
  {
    if n > 0 {
      AllLive(u, n - 1);
      assert seq(n, i => i) == seq(n - 1, i => i) + [n - 1];
    }
  }

  /** Grafting a tree without dead nodes only shifts its ids. */
  lemma LandedIsCopy(u: Arena, start: nat, p: U32, rootName: Name, i: nat)
    requires LiveParentFirst(u) && start + |u| <= MAX_U32 && u[0].name == rootName && i < |u|
    ensures |Copies(u, start, p, rootName)| == |u| && Copies(u, start, p, rootName)[i] == Landed(u, start, p, i)
  {
    hide Rank, LiveIds;
    AllLive(u, |u|);
    if i > 0 { AllLive(u, u[i].parent); }
    assert LiveIds(u, |u|)[i] == i;
  }

  /** The tree with its totals has the same links. */
  lemma RolledIsParentsFirst(u: Arena)
    requires LiveParentFirst(u)
    ensures LiveParentFirst(RollUp(u)) && |RollUp(u)| == |u| && RollUp(u)[0].name == u[0].name && RollUp(u)[0].isDir
  {
    hide RollUp, LiveParentFirst;
    RollUpIsSame(u);
    RollUpLength(u);
    OtherTotals(u, RollUp(u));
  }

  /** Totals play no part in a tree's form. */
  lemma OtherTotals(u: Arena, v: Arena)
    requires LiveParentFirst(u) && SameButTotals(u, v)
    ensures LiveParentFirst(v) && v[0].name == u[0].name && v[0].isDir
  {
  }

  lemma RollUpLength(u: Arena)
    ensures |RollUp(u)| == |u|
  {
  }

  lemma SpillNode(records: seq<Record>, rootName: Name, start: nat, p: U32, k: nat)
    requires k < |records| && start + |records| + 1 <= MAX_U32 && records[k].parent <= k
    ensures Landed(SpillSlots(rootName, 0, records), start, p, k + 1) == SpillSlot(records[k]).(parent := start + records[k].parent)
  {
  }

  /** The slots landed so far. */
  ghost predicate LandedTo(s: Arena, t: Arena, u: Arena, p: U32, n: nat)
  {
    && n <= |u| && |s| + |u| <= MAX_U32 && |t| == |s| + n && s <= t
    && forall i :: 0 <= i < n ==> t[|s| + i] == Landed(u, |s|, p, i)
  }

  lemma LandedNext(s: Arena, t: Arena, u: Arena, p: U32, n: nat)
    requires LandedTo(s, t, u, p, n) && n < |u|
    ensures LandedTo(s, t + [Landed(u, |s|, p, n)], u, p, n + 1)
  {
  }

  lemma LandedAll(s: Arena, t: Arena, u: Arena, p: U32, rootName: Name)
    requires LandedTo(s, t, u, p, |u|) && LiveParentFirst(u) && u[0].name == rootName
    ensures t == Joined(s, u, p, rootName)
  {
    hide Landed, Copies;
    forall i: nat | i < |u| ensures |Copies(u, |s|, p, rootName)| == |u| && Copies(u, |s|, p, rootName)[i] == Landed(u, |s|, p, i) {
      LandedIsCopy(u, |s|, p, rootName, i);
    }
    assert |Copies(u, |s|, p, rootName)| == |u| by { LandedIsCopy(u, |s|, p, rootName, 0); }
    assert t == s + t[|s|..];
  }

  predicate HeadOk(host: Host, t: Arena, parent: nat, rootName: Name, count: nat)
  {
    && IsDir(t, parent) && |rootName| <= MAX_U16 && host.utf8(rootName) && SafeName(host, rootName)
    && 0 < count < PARENT_LIMIT && |t| + count + 1 <= PARENT_LIMIT
  }

  /** The records laid out behind a tree as they come. */
  function LaidOut(s: Arena, parent: U32, rootName: Name, records: seq<Record>): (t: Arena)
    ensures |t| == |s| + 1 + |records| && t[..|s|] == s && t[|s|] == Slot(parent, rootName, true, 0, true, 0, 0)
    ensures forall k :: 0 <= k < |records| ==> t[|s| + 1 + k] == SpillSlot(records[k]).(parent := Behind(|s|, records[k].parent))
  {
    s + [Slot(parent, rootName, true, 0, true, 0, 0)] + seq(|records|, (k: nat) requires k < |records| => SpillSlot(records[k]).(parent := Behind(|s|, records[k].parent)))
  }

  function Behind(n: nat, parent: U32): U32
  {
    if n + parent <= MAX_U32 then n + parent else MAX_U32
  }

  lemma LaidRecord(host: Host, s: Arena, parent: U32, rootName: Name, records: seq<Record>, k: nat)
    requires k < |records| && |s| + 1 + |records| <= PARENT_LIMIT && |records[k].name| <= MAX_U16
    ensures var t, i := LaidOut(s, parent, rootName, records), |s| + 1 + k;
      EntrySound(host, records, k) <==> Representable(host, t[i]) && LinkOk(host, t, i, true)
  {
    hide SafeName;
    var t, i, p := LaidOut(s, parent, rootName, records), |s| + 1 + k, records[k].parent;
    assert t[i] == SpillSlot(records[k]).(parent := Behind(|s|, p));
    if 0 < p <= k { assert t[|s| + 1 + (p - 1)] == SpillSlot(records[p - 1]).(parent := Behind(|s|, records[p - 1].parent)); }
  }

  lemma LaidHead(host: Host, s: Arena, parent: U32, rootName: Name, records: seq<Record>)
    requires 0 < |s| && |s| + 1 + |records| <= PARENT_LIMIT && records != []
    ensures var t := LaidOut(s, parent, rootName, records);
      HeadOk(host, s, parent, rootName, |records|) <==> Representable(host, t[|s|]) && LinkOk(host, t, |s|, true)
  {
    hide SafeName;
    var t := LaidOut(s, parent, rootName, records);
    if parent < |s| { assert t[..|s|][parent] == t[parent]; }
  }

  lemma LaidBefore(host: Host, s: Arena, parent: U32, rootName: Name, records: seq<Record>, i: nat)
    requires i < |s| && LinkOk(host, s, i, true)
    ensures var t := LaidOut(s, parent, rootName, records); t[i] == s[i] && LinkOk(host, t, i, true)
  {
    hide SafeName;
    var t := LaidOut(s, parent, rootName, records);
    assert t[..|s|][i] == t[i];
    if s[i].used && i > 0 { assert t[..|s|][s[i].parent] == t[s[i].parent]; }
  }

  /** A spill of names it can hold is accepted exactly when its records, laid out behind the tree as they come, make a tree files can hold. */
  lemma {:induction false} SpillFitsExactly(host: Host, s: Arena, parent: U32, rootName: Name, records: seq<Record>)
    requires ValidTree(host, s, true) && forall k :: 0 <= k < |records| ==> |records[k].name| <= MAX_U16
    ensures HeadOk(host, s, parent, rootName, |records|) && SpillOk(host, records) <==>
            records != [] && ValidTree(host, LaidOut(s, parent, rootName, records), true)
  {
    hide EntrySound, LinkOk, Representable, Acyclic, LaidOut, HeadOk;
    var t, n := LaidOut(s, parent, rootName, records), |s|;
    HeadCounts(host, s, parent, rootName, |records|);
    if records != [] && n + 1 + |records| <= PARENT_LIMIT {
      LaidHead(host, s, parent, rootName, records);
      forall k: nat | k < |records| ensures EntrySound(host, records, k) <==> Representable(host, t[n + 1 + k]) && LinkOk(host, t, n + 1 + k, true) {
        LaidRecord(host, s, parent, rootName, records, k);
      }
      forall i: nat | i < n ensures t[i] == s[i] && LinkOk(host, t, i, true) { LaidBefore(host, s, parent, rootName, records, i); }
      if HeadOk(host, s, parent, rootName, |records|) && SpillOk(host, records) {
        forall i: nat | i < |t| ensures Representable(host, t[i]) && LinkOk(host, t, i, true) {
          if i > n { assert EntrySound(host, records, i - n - 1); }
        }
        OrderedIsAcyclic(host, t);
      }
      if ValidTree(host, t, true) {
        forall k: nat | k < |records| ensures EntrySound(host, records, k) { assert LinkOk(host, t, n + 1 + k, true); }
      }
    }
  }

  lemma HeadCounts(host: Host, s: Arena, parent: nat, rootName: Name, count: nat)
    ensures HeadOk(host, s, parent, rootName, count) ==> 0 < count && |s| + count + 1 <= PARENT_LIMIT
  {
  }

  lemma OrderedIsAcyclic(host: Host, t: Arena)
    requires forall i: nat :: i < |t| ==> LinkOk(host, t, i, true)
    ensures Acyclic(Edges(t))
  {
    forall j: nat | 0 < j < |t| && t[j].used ensures t[j].parent < j { assert LinkOk(host, t, j, true); }
    BackwardIsAcyclic(t);
  }

  /** The directory test on the landed parent is the test on its record. */
  lemma LandedParent(s: Arena, t: Arena, rootName: Name, records: seq<Record>, p: U32, k: nat)
    requires LandedTo(s, t, SpillSlots(rootName, 0, records), p, k + 1) && k < |records| && records[k].parent <= k
    ensures t[|s| + records[k].parent].isDir <==> records[k].parent == 0 || records[records[k].parent - 1].isDir
  {
    var u := SpillSlots(rootName, 0, records);
    assert t[|s| + records[k].parent] == Landed(u, |s|, p, records[k].parent);
  }

  ghost predicate Landing(t: SizeTree, s: Arena, rows: Rows, u: Arena, parent: U32, n: nat)
    reads t
  {
    && t.Shaped() && t.NamesFit() && t.StampsFit() && LandedTo(s, t.Slots(), u, parent, n)
    && t.Kids() == rows + seq(n, i => []) && RowsFitTo(t.Slots(), t.Kids(), 0)
  }

  lemma EmptyRows(n: nat)
    ensures seq<seq<nat>>(n + 1, i => []) == seq<seq<nat>>(n, i => []) + [[]]
  {
  }

  lemma PaddedFits(t: Arena, rows: Rows, e: Slot)
    requires RowsFitTo(t, rows, 0)
    ensures RowsFitTo(t + [e], rows + [[]], 0)
  {
    PaddedRowsFit(t, rows, e);
  }

  /** Lands one more node. */
  method LandNode(t: SizeTree, e: Slot, ghost s: Arena, ghost rows: Rows, ghost u: Arena, ghost parent: U32, ghost n: nat)
    requires Landing(t, s, rows, u, parent, n) && n < |u| && e == Landed(u, |s|, parent, n)
    modifies t`entries, t`children
    ensures Landing(t, s, rows, u, parent, n + 1)
  {
    hide RowsFitTo, LandedTo, Landed, CachesFit, SizeTree.Shaped;
    ghost var before, r := t.Slots(), t.Kids();
    LandedNext(s, before, u, parent, n);
    RoomToLand(s, before, u, parent, n);
    PaddedFits(before, r, e);
    EmptyRows(n);
    t.AppendNode(e);
  }

  lemma RoomToLand(s: Arena, t: Arena, u: Arena, p: U32, n: nat)
    requires LandedTo(s, t, u, p, n) && n < |u|
    ensures |t| < MAX_U32 && |t| == |s| + n
  {
  }

  method LandRecords(host: Host, t: SizeTree, parent: U32, rootName: Name, records: seq<Record>) returns (ok: bool)
    requires t.Ok() && t.NodeCount() + |records| + 1 <= PARENT_LIMIT
    modifies t`entries, t`children
    ensures ok <==> SpillOk(host, records)
    ensures ok ==> Landing(t, old(t.Slots()), old(t.Kids()), SpillSlots(rootName, 0, records), parent, |records| + 1)
  {
    hide Landing, LandedTo, RowsFit, RowsFitTo, CachesFit, SafeName, SpillSlots;
    ghost var s, rows, u := t.Slots(), t.Kids(), SpillSlots(rootName, 0, records);
    var start := t.NodeCount();
    LandingStarts(t, s, rows, u, parent);
    SpillRoot(rootName, records, start, parent);
    LandNode(t, Slot(parent, rootName, true, 0, true, 0, 0), s, rows, u, parent, 0);
    for k := 0 to |records|
      invariant Landing(t, s, rows, u, parent, k + 1)
      invariant forall j :: 0 <= j < k ==> EntrySound(host, records, j)
    {
      var r := records[k];
      LandingFacts(t, s, rows, u, parent, k + 1);
      if r.parent > k {
        assert !EntrySound(host, records, k);
        return false;
      }
      LandedParent(s, t.Slots(), rootName, records, parent, k);
      if !t.At(start + r.parent).isDir || !host.utf8(r.name) || !SafeName(host, r.name) {
        assert !EntrySound(host, records, k);
        return false;
      }
      SpillNode(records, rootName, start, parent, k);
      LandNode(t, SpillSlot(r).(parent := start + r.parent), s, rows, u, parent, k + 1);
    }
    ok := true;
  }

  lemma SpillRoot(rootName: Name, records: seq<Record>, start: nat, p: U32)
    requires start + |records| + 1 <= MAX_U32
    ensures Landed(SpillSlots(rootName, 0, records), start, p, 0) == Slot(p, rootName, true, 0, true, 0, 0)
  {
  }

  lemma LandingStarts(t: SizeTree, s: Arena, rows: Rows, u: Arena, parent: U32)
    requires t.Ok() && s == t.Slots() && rows == t.Kids() && |s| + |u| <= MAX_U32
    ensures Landing(t, s, rows, u, parent, 0)
  {
    hide CachesFit;
    RowsFitStart(s, rows);
    assert rows + seq(0, i => []) == rows;
  }

  lemma LandingFacts(t: SizeTree, s: Arena, rows: Rows, u: Arena, parent: U32, n: nat)
    requires Landing(t, s, rows, u, parent, n)
    ensures LandedTo(s, t.Slots(), u, parent, n) && |t.Slots()| == |s| + n && t.NodeCount() == |s| + n
  {
  }

  /** v landed: the appended slots of t are v's, moved. */
  ghost predicate Holds(t: Arena, s: Arena, v: Arena, p: U32)
  {
    LandedTo(s, t, v, p, |v|)
  }

  lemma HoldsPassed(t: Arena, s: Arena, v: Arena, p: U32, i: nat)
    requires Holds(t, s, v, p) && 0 < i < |v| && v[i].parent < i && |s| + |v| <= MAX_U32
    ensures t[|s| + i].parent == |s| + v[i].parent && t[|s| + i].size == v[i].size && t[|s| + i].files == v[i].files && t[|s| + i].isDir == v[i].isDir
    ensures t[|s| + v[i].parent].size == v[v[i].parent].size && t[|s| + v[i].parent].files == v[v[i].parent].files
    ensures Holds(t[|s| + v[i].parent := t[|s| + v[i].parent].(size := PassedOn(v, i)[v[i].parent].size, files := PassedOn(v, i)[v[i].parent].files)], s, PassedOn(v, i), p)
  {
    assert t[|s| + i] == Landed(v, |s|, p, i);
    var q, v' := v[i].parent, PassedOn(v, i);
    assert t[|s| + q] == Landed(v, |s|, p, q);
    var t' := t[|s| + q := t[|s| + q].(size := v'[q].size, files := v'[q].files)];
    forall j: nat | j < |v| ensures t'[|s| + j] == Landed(v', |s|, p, j) {
      assert t[|s| + j] == Landed(v, |s|, p, j);
    }
    assert s <= t';
  }

  /** Adds every node to its parent, last node first, in the appended slots. */
  method RollLanded(t: SizeTree, start: nat, parent: U32, ghost s: Arena, ghost u: Arena)
    requires t.Shaped() && start == |s| && Holds(t.Slots(), s, u, parent) && LiveParentFirst(u) && BytesBelow(u, 0) <= MAX_U64 && |u| <= MAX_U32
    requires forall d :: 0 <= d < |u| ==> u[d].isDir ==> u[d].size == 0 && u[d].files == 0
    modifies t`overrides, t`entries
    ensures t.Shaped() && Holds(t.Slots(), s, RollUp(u), parent) && t.Kids() == old(t.Kids())
  {
    hide BytesBelow, LiveParentFirst, RolledDown, Holds, PassedOn, RollUp, Overlay, SizeTree.Shaped, RowOf;
    ghost var v := u;
    RollStarts(u);
    HoldsLength(t.Slots(), s, u, parent);
    FirstNode(u);
    var i := t.NodeCount() - 1;
    while i > start
      invariant start <= i && t.NodeCount() == start + |u| && i < start + |u|
      invariant t.Shaped() && Holds(t.Slots(), s, v, parent) && RolledDown(u, v, i - start) && t.Kids() == old(t.Kids())
      decreases i
    {
      RolledLength(u, v, i - start);
      PassesOn(u, v, i - start);
      HoldsPassed(t.Slots(), s, v, parent, i - start);
      PassedValues(v, i - start);
      var child := t.At(i);
      var p := t.At(child.parent);
      t.SetSlot(child.parent, p.(size := (p.size + child.size) % TWO_TO_THE_64, files := (p.files + (if child.isDir then child.files else 1)) % TWO_TO_THE_64));
      v := PassedOn(v, i - start);
      i := i - 1;
    }
    RollEnds(u, v);
  }

  lemma PassedValues(v: Arena, i: nat)
    requires i < |v| && v[i].parent < |v|
    ensures PassedOn(v, i)[v[i].parent].size == (v[v[i].parent].size + v[i].size) % TWO_TO_THE_64
    ensures PassedOn(v, i)[v[i].parent].files == (v[v[i].parent].files + (if v[i].isDir then v[i].files else 1)) % TWO_TO_THE_64
  {
  }

  lemma RolledLength(u: Arena, v: Arena, k: nat)
    requires RolledDown(u, v, k)
    ensures |v| == |u| && k <= |u|
  {
  }

  lemma HoldsLength(t: Arena, s: Arena, v: Arena, p: U32)
    requires Holds(t, s, v, p)
    ensures |t| == |s| + |v| && |s| + |v| <= MAX_U32
  {
  }

  lemma FirstNode(u: Arena)
    requires LiveParentFirst(u)
    ensures 0 < |u|
  {
  }

  /** Landing and rolling up, then linking and crediting the ancestors, is grafting the rolled tree. */
  lemma ReadyToLink(s: Arena, t: Arena, rows: Rows, rows': Rows, fold: Fold, caches: map<nat, NameCache>, u: Arena, parent: U32, rootName: Name)
    requires WellFormed(s) && RowsFit(s, rows) && CachesFit(s, fold, rows, caches) && IsDir(s, parent)
    requires LiveParentFirst(u) && u[0].name == rootName && Holds(t, s, u, parent) && rows' == rows + seq(|u|, i => [])
    ensures t == Joined(s, u, parent, rootName) && RowsFitTo(t, rows', |s|) && CachesFit(t, fold, rows', caches)
    ensures |t| == |s| + |u| && t[|s|].size == u[0].size && t[|s|].files == u[0].files
  {
    hide WellFormed, RowsFit, CachesFit, LiveParentFirst, RowsFitTo, Joined;
    HoldsLength(t, s, u, parent);
    FirstNode(u);
    LandedAll(s, t, u, parent, rootName);
    ParentsFirstIsTree(u);
    JoinedEdges(s, u, parent, rootName);
    RowsLength(s, rows);
    RowsExtend(s, t, rows, rows');
    RowsFitStart(s, rows);
    CachesExtend(s, t, fold, rows, rows', caches);
    assert t[|s| + 0] == Landed(u, |s|, parent, 0);
  }

  lemma RowsLength(s: Arena, rows: Rows)
    requires RowsFit(s, rows)
    ensures |rows| == |s|
  {
  }

  lemma GraftWalk(s: Arena, u: Arena, parent: U32, rootName: Name)
    requires |u| > 0 && |s| + |u| <= MAX_U32
    ensures Grafted(s, u, parent, rootName) == Touch(Joined(s, u, parent, rootName), Chain(Joined(s, u, parent, rootName), parent), AddTotals(u[0].size, u[0].files))
  {
  }

  lemma FreshDirs(rootName: Name, records: seq<Record>)
    ensures forall d :: 0 <= d < |records| + 1 ==> SpillSlots(rootName, 0, records)[d].isDir ==> SpillSlots(rootName, 0, records)[d].size == 0 && SpillSlots(rootName, 0, records)[d].files == 0
  {
    var u := SpillSlots(rootName, 0, records);
    forall d | 0 <= d < |u| && u[d].isDir ensures u[d].size == 0 && u[d].files == 0 {
      if d > 0 { assert u[d] == SpillSlot(records[d - 1]); }
    }
  }

  /** Appends a spilled scan of `from` under a directory and takes over its gaps. On a malformed spill the candidate is left unfinished and must be abandoned. */
  method AppendSpillSubtree(host: Host, t: SizeTree, parent: nat, rootName: Name, records: seq<Record>, from: seq<Name>, gaps: seq<Place>) returns (ok: bool)
    requires t.Ok() && WellFormed(t.Slots()) && BytesBelow(SpillSlots(rootName, 0, records), 0) <= MAX_U64
    modifies t
    ensures ok <==> HeadOk(host, old(t.Slots()), parent, rootName, |records|) && SpillOk(host, records)
    ensures ok ==> t.Ok() && t.base == old(t.base) && t.extraParents == old(t.extraParents)
    ensures ok ==> t.Slots() == Grafted(old(t.Slots()), RollUp(SpillSlots(rootName, 0, records)), parent, rootName)
    ensures ok ==> t.Kids() == LinkedOn(t.Slots(), old(t.Kids()))
    ensures ok ==> t.blocked == old(t.blocked) + HandedOn(NewRoot(t.Slots(), t.mount, parent, rootName), from, gaps)
  {
    hide *;
    ok := StreamSubtree(host, t, parent, rootName, records);
    if ok { t.AppendCoverage(parent, rootName, from, gaps); }
  }

  /** The slots and rows of a streamed spill. */
  method StreamSubtree(host: Host, t: SizeTree, parent: nat, rootName: Name, records: seq<Record>) returns (ok: bool)
    requires t.Ok() && WellFormed(t.Slots()) && BytesBelow(SpillSlots(rootName, 0, records), 0) <= MAX_U64
    modifies t`overrides, t`entries, t`children, t`childEdits, t`childNames, t`ancestorStamp, t`ancestorGen
    ensures ok <==> HeadOk(host, old(t.Slots()), parent, rootName, |records|) && SpillOk(host, records)
    ensures ok ==> t.Ok() && |old(t.Slots())| + |RollUp(SpillSlots(rootName, 0, records))| <= MAX_U32 && parent <= MAX_U32
    ensures ok ==> t.Slots() == Grafted(old(t.Slots()), RollUp(SpillSlots(rootName, 0, records)), parent, rootName)
    ensures ok ==> t.Kids() == LinkedOn(t.Slots(), old(t.Kids()))
  {
    hide RowsFit, RowsFitTo, CachesFit, WellFormed, SpillSlots, BytesBelow, Grafted, RollUp, SizeTree.Shaped, EntrySound, SafeName, Holds, Landing, LiveParentFirst, LinkedOn;
    ghost var s, rows, u, caches := t.Slots(), t.Kids(), SpillSlots(rootName, 0, records), t.childNames;
    if !t.LiveDir(parent) || |rootName| > MAX_U16 || !host.utf8(rootName) || !SafeName(host, rootName) {
      return false;
    }
    if |records| == 0 || |records| >= PARENT_LIMIT || t.NodeCount() + |records| + 1 > PARENT_LIMIT {
      return false;
    }
    var start := t.NodeCount();
    ok := LandRecords(host, t, parent, rootName, records);
    if !ok {
      return;
    }
    LandedWhole(t, s, rows, rootName, records, parent);
    SpillIsParentsFirst(host, rootName, 0, records);
    FreshDirs(rootName, records);
    FinishSpill(t, start, parent, rootName, s, rows, u);
  }

  /** Rolls the landed nodes up; the tree is then ready to link them. */
  method RollReady(t: SizeTree, start: nat, parent: U32, rootName: Name, ghost s: Arena, ghost rows: Rows, ghost u: Arena)
    requires t.Shaped() && t.StampsFit() && Holds(t.Slots(), s, u, parent) && t.Kids() == rows + seq(|u|, i => [])
    requires WellFormed(s) && RowsFit(s, rows) && CachesFit(s, t.fold, rows, t.childNames) && IsDir(s, parent) && start == |s|
    requires LiveParentFirst(u) && u[0].name == rootName && BytesBelow(u, 0) <= MAX_U64 && |u| <= MAX_U32
    requires forall d :: 0 <= d < |u| ==> u[d].isDir ==> u[d].size == 0 && u[d].files == 0
    modifies t`overrides, t`entries
    ensures t.Shaped() && t.NamesFit() && RowsFitTo(t.Slots(), t.Kids(), start) && t.Kids() == old(t.Kids())
    ensures |s| + |u| <= MAX_U32 && t.Slots() == Joined(s, RollUp(u), parent, rootName)
    ensures start < |t.Slots()| && t.Slots()[start].size == RollUp(u)[0].size && t.Slots()[start].files == RollUp(u)[0].files
  {
    hide RowsFit, RowsFitTo, CachesFit, WellFormed, BytesBelow, Joined, RollUp, SizeTree.Shaped, Holds, LiveParentFirst, Overlay, RowOf;
    ghost var caches := t.childNames;
    FirstNode(u);
    HoldsLength(t.Slots(), s, u, parent);
    RollLanded(t, start, parent, s, u);
    RolledIsParentsFirst(u);
    ReadyToLink(s, t.Slots(), rows, t.Kids(), t.fold, caches, RollUp(u), parent, rootName);
  }

  /** Then credits the ancestors of the new subtree. */
  method FinishSpill(t: SizeTree, start: nat, parent: U32, rootName: Name, ghost s: Arena, ghost rows: Rows, ghost u: Arena)
    requires t.Shaped() && t.StampsFit() && Holds(t.Slots(), s, u, parent) && t.Kids() == rows + seq(|u|, i => [])
    requires WellFormed(s) && RowsFit(s, rows) && CachesFit(s, t.fold, rows, t.childNames) && IsDir(s, parent) && start == |s|
    requires LiveParentFirst(u) && u[0].name == rootName && BytesBelow(u, 0) <= MAX_U64 && |u| <= MAX_U32
    requires forall d :: 0 <= d < |u| ==> u[d].isDir ==> u[d].size == 0 && u[d].files == 0
    modifies t`overrides, t`entries, t`children, t`childEdits, t`childNames, t`ancestorStamp, t`ancestorGen
    ensures t.Ok() && |s| + |u| <= MAX_U32 && t.Slots() == Grafted(s, RollUp(u), parent, rootName)
    ensures t.Kids() == LinkedOn(t.Slots(), rows)
  {
    hide LinkedOn, RowsFit, RowsFitTo, RowsLinked, CachesFit, WellFormed, BytesBelow, Grafted, Joined, RollUp, Chain, Touch, SizeTree.Shaped, Holds, LiveParentFirst, Overlay, RowOf;
    FirstNode(u);
    RollReady(t, start, parent, rootName, s, rows, u);
    ghost var linked := t.Slots();
    RowsLength(s, rows);
    t.LinkFrom(start);
    GraftWalk(s, RollUp(u), parent, rootName);
    t.Walk(parent, AddTotals(t.At(start).size, t.At(start).files));
    CreditedRows(linked, t.Slots(), rows, t.Kids(), parent, linked[start].size, linked[start].files);
  }

  lemma LandedWhole(t: SizeTree, s: Arena, rows: Rows, rootName: Name, records: seq<Record>, parent: U32)
    requires Landing(t, s, rows, SpillSlots(rootName, 0, records), parent, |records| + 1)
    ensures t.Shaped() && t.StampsFit() && Holds(t.Slots(), s, SpillSlots(rootName, 0, records), parent) && t.Kids() == rows + seq(|records| + 1, i => [])
    ensures |SpillSlots(rootName, 0, records)| == |records| + 1 && SpillSlots(rootName, 0, records)[0].name == rootName
    ensures t.NodeCount() == |s| + |records| + 1
  {
  }

  // -- Against materialising ------------------------------------------------------------------------

  /** The same nodes, but for the name and time of the root. */
  ghost predicate AlikeBelowRoot(u: Arena, v: Arena)
  {
    && |u| == |v| && 0 < |u| && v[0] == u[0].(name := v[0].name, mtime := v[0].mtime)
    && forall i :: 0 < i < |u| ==> v[i] == u[i]
  }

  lemma RollUpAlike(u: Arena, v: Arena)
    requires AlikeBelowRoot(u, v)
    ensures AlikeBelowRoot(RollUp(u), RollUp(v)) && RollUp(u)[0].mtime == u[0].mtime && RollUp(v)[0].mtime == v[0].mtime && RollUp(u)[0].size == RollUp(v)[0].size && RollUp(u)[0].files == RollUp(v)[0].files
  {
    hide Received, ChildBranch;
    forall i: nat | i < |u| ensures HeapEdge(u, i) == HeapEdge(v, i) { }
    assert Edges(u) == Edges(v);
    assert OffCycle(u) == OffCycle(v);
    forall d: nat | d < |u| ensures Received(Edges(u), SizeWeight(u), d, OffCycle(u)) == Received(Edges(v), SizeWeight(v), d, OffCycle(v)) && Received(Edges(u), CountWeight(u), d, OffCycle(u)) == Received(Edges(v), CountWeight(v), d, OffCycle(v)) {
      WeighedAlike(Edges(u), SizeWeight(u), SizeWeight(v), d, OffCycle(u));
      WeighedAlike(Edges(u), CountWeight(u), CountWeight(v), d, OffCycle(u));
    }
  }

  lemma WeighedAlike(e: Graph, w: nat -> nat, w': nat -> nat, d: nat, done: set<nat>)
    requires forall i: nat :: i < |e| ==> w(i) == w'(i)
    ensures Received(e, w, d, done) == Received(e, w', d, done)
  {
    hide Reaches;
    forall c: nat | c < |e| ensures ChildBranch(e, w, d, done)(c) == ChildBranch(e, w', d, done)(c) {
      SumEqual(|e|, BelowWeight(e, w, c), BelowWeight(e, w', c));
    }
    SumEqual(|e|, ChildBranch(e, w, d, done), ChildBranch(e, w', d, done));
  }

  lemma {:induction false} LiveIdsAlike(u: Arena, v: Arena, n: nat)
    requires AlikeBelowRoot(u, v) && n <= |u|
    ensures Rank(u, n) == Rank(v, n) && LiveIds(u, n) == LiveIds(v, n)
  {
    if n > 0 { LiveIdsAlike(u, v, n - 1); }
  }

  lemma CopiesAlike(u: Arena, v: Arena, start: nat, p: U32, rootName: Name)
    requires AlikeBelowRoot(u, v) && u[0].used && start + |u| <= MAX_U32
    ensures 0 < |Copies(u, start, p, rootName)| == |Copies(v, start, p, rootName)|
    ensures Copies(v, start, p, rootName)[0] == Copies(u, start, p, rootName)[0].(mtime := v[0].mtime)
    ensures forall k :: 0 < k < |Copies(u, start, p, rootName)| ==> Copies(v, start, p, rootName)[k] == Copies(u, start, p, rootName)[k]
  {
    LiveIdsAlike(u, v, |u|);
    LiveIdOfRank(u, |u|, 0);
    var ids := LiveIds(u, |u|);
    forall k: nat | 0 < k < |ids| ensures ids[k] != 0 { RankOfLiveId(u, |u|, k); RankOfLiveId(u, |u|, 0); }
    forall i: nat | i < |u| ensures Rank(u, i) == Rank(v, i) { LiveIdsAlike(u, v, i); }
  }

  /** The same slots, but for the time of slot k. */
  predicate SameButTime(x: Arena, y: Arena, k: nat)
  {
    |x| == |y| && k < |x| && x == y[k := y[k].(mtime := x[k].mtime)]
  }

  lemma JoinedAlike(s: Arena, u: Arena, v: Arena, p: U32, rootName: Name)
    requires AlikeBelowRoot(u, v) && u[0].used && |s| + |u| <= MAX_U32
    ensures SameButTime(Joined(s, u, p, rootName), Joined(s, v, p, rootName), |s|) && Joined(s, u, p, rootName)[|s|].mtime == u[0].mtime
  {
    hide Copies;
    CopiesAlike(u, v, |s|, p, rootName);
    FirstCopy(u, |s|, p, rootName);
    var x, y := Joined(s, u, p, rootName), Joined(s, v, p, rootName);
    forall k | 0 <= k < |x| ensures x[k] == y[|s| := y[|s|].(mtime := x[|s|].mtime)][k] {
      if k >= |s| { assert x[k] == Copies(u, |s|, p, rootName)[k - |s|] && y[k] == Copies(v, |s|, p, rootName)[k - |s|]; }
    }
  }

  lemma TouchAlike(x: Arena, y: Arena, p: nat, k: nat, size: U64, files: U64)
    requires SameButTime(x, y, k)
    ensures SameButTime(Touch(x, Chain(x, p), AddTotals(size, files)), Touch(y, Chain(y, p), AddTotals(size, files)), k)
    ensures Touch(x, Chain(x, p), AddTotals(size, files))[k].mtime == x[k].mtime
  {
    hide Climb;
    forall i | 0 <= i < |x| ensures x[i] == if i == k then y[i].(mtime := x[k].mtime) else y[i] { }
    ClimbAlike(x, y, p, WALK_LIMIT, {});
  }

  /**
   * Streaming a spill under a directory leaves the slots that materialising its tree and appending that would, but for
   * the new root's time; with them the child rows, whatever they were, and the place gaps are handed on to.
   */
  lemma StreamingIsMaterialising(s: Arena, records: seq<Record>, parent: U32, rootName: Name, anyName: Name, anyTime: U64, rows: Rows, mount: seq<Name>)
    requires |s| + |records| + 1 <= MAX_U32
    ensures var streamed := Grafted(s, RollUp(SpillSlots(rootName, 0, records)), parent, rootName);
      var appended := Grafted(s, RollUp(SpillSlots(anyName, anyTime, records)), parent, rootName);
      && SameButTime(streamed, appended, |s|) && streamed[|s|].mtime == 0
      && LinkedOn(streamed, rows) == LinkedOn(appended, rows)
      && NewRoot(streamed, mount, parent, rootName) == NewRoot(appended, mount, parent, rootName)
  {
    hide RollUp, Joined, Touch, Chain, SpillSlots, LinkedOn, NewRoot;
    var u0, v0 := SpillSlots(rootName, 0, records), SpillSlots(anyName, anyTime, records);
    SpillsAlike(records, rootName, anyName, anyTime);
    RollUpAlike(u0, v0);
    RollUpIsSame(u0);
    JoinedAlike(s, RollUp(u0), RollUp(v0), parent, rootName);
    TouchAlike(Joined(s, RollUp(u0), parent, rootName), Joined(s, RollUp(v0), parent, rootName), parent, |s|, RollUp(u0)[0].size, RollUp(u0)[0].files);
    var streamed, appended := Grafted(s, RollUp(u0), parent, rootName), Grafted(s, RollUp(v0), parent, rootName);
    ButTimeIsElsewhere(streamed, appended, |s|, rows, mount, parent, rootName);
  }

  /** A node's time decides neither rows nor places. */
  lemma ButTimeIsElsewhere(x: Arena, y: Arena, k: nat, rows: Rows, mount: seq<Name>, parent: nat, name: Name)
    requires SameButTime(x, y, k)
    ensures LinkedOn(x, rows) == LinkedOn(y, rows) && NewRoot(x, mount, parent, name) == NewRoot(y, mount, parent, name)
  {
    hide LinkedOn;
    forall i | 0 <= i < |x| ensures x[i] == (if i == k then y[i].(mtime := x[k].mtime) else y[i]) { }
    assert SameLinks(y, x);
    LinkedBeforeWalk(y, x, rows);
    SamePlaces(y, x, parent, PATH_LIMIT);
  }

  lemma FirstCopy(u: Arena, start: nat, p: U32, rootName: Name)
    requires 0 < |u| && u[0].used && start + |u| <= MAX_U32
    ensures 0 < |Copies(u, start, p, rootName)| && Copies(u, start, p, rootName)[0].mtime == u[0].mtime
  {
    LiveIdOfRank(u, |u|, 0);
  }

  lemma SpillsAlike(records: seq<Record>, rootName: Name, anyName: Name, anyTime: U64)
    ensures AlikeBelowRoot(SpillSlots(rootName, 0, records), SpillSlots(anyName, anyTime, records))
    ensures SpillSlots(rootName, 0, records)[0].used && SpillSlots(rootName, 0, records)[0].mtime == 0 && |SpillSlots(rootName, 0, records)| == |records| + 1
  {
    var u, v := SpillSlots(rootName, 0, records), SpillSlots(anyName, anyTime, records);
    forall i | 0 < i < |u| ensures v[i] == u[i] { assert u[i] == SpillSlot(records[i - 1]); }
  }
}
