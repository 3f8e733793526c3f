/** Dropping dead slots and renumbering the live ones so that parents come first. */
module Compaction {
  import opened Words
  import opened Sums
  import opened Forest
  import opened Slots
  import opened Ancestors
  import opened Edits
  import opened Validation
  import opened Grafting
  import opened BaseRoundTrip

  /** Where an id stands in a list. */
  function Position(order: seq<nat>, id: nat): (r: nat)
    requires id in order
    ensures r < |order| && order[r] == id
  {
    if order[|order| - 1] == id then |order| - 1 else Position(order[..|order| - 1], id)
  }

  /** The live nodes in some order that starts at the root and puts parents before children. */
  ghost predicate Ordering(s: Arena, order: seq<nat>)
  {
    && RootOk(s) && 0 < |order| <= |s| && order[0] == 0 && Distinct(order)
    && (forall i :: i in order <==> Valid(s, i))
    && forall k :: 0 < k < |order| ==> ParentBefore(s, order, k)
  }

  ghost predicate ParentBefore(s: Arena, order: seq<nat>, k: nat)
    requires k < |order|
  {
    order[k] < |s| && s[order[k]].parent in order && Position(order, s[order[k]].parent) < k
  }

  /** Slot k of the compact tree is node order[k], its parent renamed. */
  function Renamed(s: Arena, order: seq<nat>, k: nat): (e: Slot)
    requires Ordering(s, order) && k < |order|
  {
    var id := order[k];
    assert id in order;
    if k == 0 then s[id] else
      assert ParentBefore(s, order, k);
      s[id].(parent := Position(order, s[id].parent))
  }

  function Compact(s: Arena, order: seq<nat>): (c: Arena)
    requires Ordering(s, order)
    ensures |c| == |order| && forall k :: 0 <= k < |c| ==> c[k] == Renamed(s, order, k)
  {
    seq(|order|, (k: nat) requires k < |order| => Renamed(s, order, k))
  }

  // -- The map is an isomorphism on live nodes -------------------------------------------

  lemma {:induction false} PositionOf(order: seq<nat>, k: nat)
    requires Distinct(order) && k < |order|
    ensures Position(order, order[k]) == k
  {
    var r := Position(order, order[k]);
    assert order[r] == order[k];
  }

  /** Slot k is node order[k]: same name, kind, size, time and count; its parent is its parent's image. */
  lemma CompactNode(host: Host, s: Arena, order: seq<nat>, k: nat)
    requires ValidTree(host, s, false) && Ordering(s, order) && k < |order|
    ensures Valid(s, order[k]) && Compact(s, order)[k] == s[order[k]].(parent := Compact(s, order)[k].parent)
    ensures Compact(s, order)[k].parent < |order| && order[Compact(s, order)[k].parent] == s[order[k]].parent
    ensures k > 0 ==> Compact(s, order)[k].parent < k && HeapEdge(Compact(s, order), k) == Some(Compact(s, order)[k].parent as nat)
    ensures k > 0 ==> HeapEdge(s, order[k]) == Some(s[order[k]].parent as nat)
  {
    hide Acyclic, Position;
    assert order[k] in order;
    if k > 0 {
      assert ParentBefore(s, order, k);
      assert order[k] != order[0];
      assert LinkOk(host, s, order[k], false);
      var j := Compact(s, order)[k].parent;
      assert order[j] == s[order[k]].parent;
      assert Compact(s, order)[j] == Renamed(s, order, j);
    }
  }

  /** Nodes are linked in the compact tree exactly when they are in the original. */
  lemma CompactEdges(host: Host, s: Arena, order: seq<nat>, k: nat, j: nat)
    requires ValidTree(host, s, false) && Ordering(s, order) && k < |order| && j < |order|
    ensures ChildOf(Edges(Compact(s, order)), k, j) <==> ChildOf(Edges(s), order[k], order[j])
  {
    hide ValidTree, Compact, Position;
    CompactNode(host, s, order, k);
    if k > 0 {
      var p := Compact(s, order)[k].parent;
      assert j != p ==> order[j] != order[p];
    }
  }

  /** The compact tree is one files can hold. */
  lemma CompactIsCompacted(host: Host, s: Arena, order: seq<nat>)
    requires ValidTree(host, s, false) && Ordering(s, order)
    ensures Compacted(host, Compact(s, order))
  {
    hide Acyclic, Compact, SafeName, Ordering;
    var c := Compact(s, order);
    CompactRoot(s, order);
    forall k: nat | k < |c| ensures c[k].used && Representable(host, c[k]) && LinkOk(host, c, k, true) {
      CompactNode(host, s, order, k);
      CompactLinkOk(host, s, order, k);
    }
    BackwardParents(host, c);
    BackwardIsAcyclic(c);
  }

  lemma CompactRoot(s: Arena, order: seq<nat>)
    requires Ordering(s, order)
    ensures RootOk(Compact(s, order)) && |Compact(s, order)| == |order|
  {
    assert Compact(s, order)[0] == Renamed(s, order, 0);
  }

  lemma BackwardParents(host: Host, c: Arena)
    requires forall k: nat :: k < |c| ==> LinkOk(host, c, k, true)
    ensures forall k :: 0 < k < |c| && c[k].used ==> c[k].parent < k
  {
    forall k: nat | 0 < k < |c| && c[k].used ensures c[k].parent < k { assert LinkOk(host, c, k, true); }
  }

  lemma CompactLinkOk(host: Host, s: Arena, order: seq<nat>, k: nat)
    requires ValidTree(host, s, false) && Ordering(s, order) && k < |order|
    ensures Compact(s, order)[k].used && Representable(host, Compact(s, order)[k]) && LinkOk(host, Compact(s, order), k, true)
  {
    hide Acyclic, Position, SafeName, Compact;
    CompactNode(host, s, order, k);
    CompactRoot(s, order);
    assert Representable(host, s[order[k]]);
    if k > 0 {
      assert order[k] != order[0];
      assert LinkOk(host, s, order[k], false);
      CompactNode(host, s, order, Compact(s, order)[k].parent);
    }
  }

  // -- Totals ---------------------------------------------------------------------------------

  /** Chains are renumbered node by node. */
  lemma {:induction false} CompactUp(host: Host, s: Arena, order: seq<nat>, k: nat, m: nat)
    requires ValidTree(host, s, false) && Ordering(s, order) && k < |order| && order[k] < |s|
    ensures var a, b := Up(Edges(Compact(s, order)), k, m), Up(Edges(s), order[k], m);
      (a.Some? <==> b.Some?) && (a.Some? ==> a.value < |order| && order[a.value] == b.value)
  {
    hide ValidTree, Ordering, Compact;
    if m > 0 {
      CompactUp(host, s, order, k, m - 1);
      var a := Up(Edges(Compact(s, order)), k, m - 1);
      if a.Some? {
        CompactNode(host, s, order, a.value);
        OrderStarts(s, order);
      }
    }
  }

  lemma OrderStarts(s: Arena, order: seq<nat>)
    requires Ordering(s, order)
    ensures |Compact(s, order)| == |order| > 0 && order[0] == 0
    ensures forall k :: 0 <= k < |order| ==> Valid(s, order[k])
    ensures forall i :: 0 <= i < |s| && s[i].used ==> i in order
    ensures forall k, m :: 0 <= k < m < |order| ==> order[k] != order[m]
  {
    forall k | 0 <= k < |order| ensures Valid(s, order[k]) { assert order[k] in order; }
  }

  lemma CompactReaches(host: Host, s: Arena, order: seq<nat>, k: nat, j: nat)
    requires ValidTree(host, s, false) && Ordering(s, order) && k < |order| && j < |order| && order[k] < |s|
    ensures Reaches(Edges(Compact(s, order)), k, j) <==> Reaches(Edges(s), order[k], order[j])
  {
    hide ValidTree, Compact, Up;
    var e, e' := Edges(s), Edges(Compact(s, order));
    if Reaches(e', k, j) {
      var m: nat :| m >= 1 && Up(e', k, m) == Some(j);
      CompactUp(host, s, order, k, m);
    }
    if Reaches(e, order[k], order[j]) {
      var m: nat :| m >= 1 && Up(e, order[k], m) == Some(order[j]);
      CompactUp(host, s, order, k, m);
      assert Up(e', k, m) == Some(j);
    }
  }

  /** What lies below a node weighs the same after compaction. */
  lemma CompactTotals(host: Host, s: Arena, order: seq<nat>, j: nat)
    requires ValidTree(host, s, false) && Ordering(s, order) && j < |order|
    ensures BytesBelow(Compact(s, order), j) == BytesBelow(s, order[j]) && FilesBelow(Compact(s, order), j) == FilesBelow(s, order[j])
  {
    hide ValidTree, Ordering, Compact, Reaches;
    OrderStarts(s, order);
    var c, e := Compact(s, order), Edges(s);
    forall k: nat | k < |order| ensures BelowWeight(Edges(c), SizeWeight(c), j)(k) == BelowWeight(e, SizeWeight(s), order[j])(order[k])
                                     && BelowWeight(Edges(c), CountWeight(c), j)(k) == BelowWeight(e, CountWeight(s), order[j])(order[k]) {
      CompactReaches(host, s, order, k, j);
      CompactNode(host, s, order, k);
    }
    SumReindexed(|s|, BelowWeight(e, SizeWeight(s), order[j]), order, BelowWeight(Edges(c), SizeWeight(c), j));
    SumReindexed(|s|, BelowWeight(e, CountWeight(s), order[j]), order, BelowWeight(Edges(c), CountWeight(c), j));
  }

  /** A tree with exact totals and chains one walk can climb is one after compaction. */
  lemma CompactKeepsExact(host: Host, s: Arena, order: seq<nat>)
    requires ValidTree(host, s, false) && Ordering(s, order) && Exact(s)
    ensures Exact(Compact(s, order))
  {
    hide Ordering, Compact, BytesBelow, FilesBelow, Acyclic, Edges, Representable, SafeName;
    var c := Compact(s, order);
    OrderStarts(s, order);
    CompactIsCompacted(host, s, order);
    forall i | 0 < i < |c| ensures IsDir(c, c[i].parent) && c[i].parent != i { assert LinkOk(host, c, i, true); }
    forall k | Valid(c, k) ensures Up(Edges(c), k, WALK_LIMIT).None? { CompactUp(host, s, order, k, WALK_LIMIT); }
    forall j | IsDir(c, j) ensures c[j].size == BytesBelow(c, j) && c[j].files == FilesBelow(c, j) {
      CompactNode(host, s, order, j);
      CompactTotals(host, s, order, j);
    }
  }

  // -- Counts ---------------------------------------------------------------------------------

  ghost function Incidence(order: seq<nat>, w: nat -> nat): (nat, nat) -> nat
  {
    (k: nat, i: nat) => if k < |order| && order[k] == i then w(i) else 0
  }

  ghost function Along(order: seq<nat>, w: nat -> nat): nat -> nat
  {
    (k: nat) => if k < |order| then w(order[k]) else 0
  }

  /** A sum over the listed nodes is a sum over all nodes when the rest weigh nothing. */
  lemma {:induction false} SumAlong(order: seq<nat>, n: nat, w: nat -> nat)
    requires Distinct(order) && (forall k :: 0 <= k < |order| ==> order[k] < n) && forall i: nat :: i < n && i !in order ==> w(i) == 0
    ensures Sum(|order|, Along(order, w)) == Sum(n, w)
  {
    var f := Incidence(order, w);
    SumExchange(|order|, n, f);
    forall k: nat | k < |order| ensures RowSums(f, n)(k) == w(order[k]) {
      SumSingle(n, Row(f, k), order[k]);
    }
    SumEqual(|order|, RowSums(f, n), Along(order, w));
    forall i: nat | i < n ensures ColumnSums(f, |order|)(i) == w(i) {
      if i in order {
        SumSingle(|order|, Column(f, i), Position(order, i));
      } else {
        SumZero(|order|, Column(f, i));
      }
    }
    SumEqual(n, ColumnSums(f, |order|), w);
  }

  /** Compaction keeps the number of live files and directories. */
  lemma CompactCounts(host: Host, s: Arena, order: seq<nat>, directory: bool)
    requires ValidTree(host, s, false) && Ordering(s, order)
    ensures CountKind(Compact(s, order), directory) == CountKind(s, directory)
  {
    hide ValidTree, Ordering, Compact;
    var c := Compact(s, order);
    CompactRoot(s, order);
    OrderingFacts(s, order);
    forall k: nat | k < |order| ensures KindWeight(c, directory)(k) == Along(order, KindWeight(s, directory))(k) {
      CompactNode(host, s, order, k);
    }
    SumEqual(|order|, KindWeight(c, directory), Along(order, KindWeight(s, directory)));
    SumAlong(order, |s|, KindWeight(s, directory));
  }

  lemma OrderingFacts(s: Arena, order: seq<nat>)
    requires Ordering(s, order)
    ensures Distinct(order) && (forall i :: i in order <==> Valid(s, i)) && forall k :: 0 <= k < |order| ==> order[k] < |s|
  {
    forall k | 0 <= k < |order| ensures order[k] < |s| { assert order[k] in order; }
  }

  // -- Slot order -----------------------------------------------------------------------------

  /** In a parent-first tree slot order will do. */
  lemma {:induction false} SlotOrder(host: Host, s: Arena)
    requires ValidTree(host, s, false) && ParentFirst(s)
    ensures Ordering(s, LiveIds(s, |s|))
  {
    hide Acyclic, Position, SafeName;
    var order := LiveIds(s, |s|);
    LiveIdOfRank(s, |s|, 0);
    forall a: nat, b: nat | a < b < |order| ensures order[a] < order[b] { LiveIdsAscend(s, |s|, a, b); }
    forall i: nat ensures i in order <==> Valid(s, i) {
      if Valid(s, i) { LiveIdOfRank(s, |s|, i); }
    }
    forall k: nat | 0 < k < |order| ensures ParentBefore(s, order, k) {
      assert order[k] != order[0];
      assert LinkOk(host, s, order[k], false);
      var p := s[order[k]].parent;
      assert p in order;
      var j := Position(order, p);
    }
  }

  lemma {:induction false} LiveIdsAscend(s: Arena, n: nat, a: nat, b: nat)
    requires n <= |s| && a < b < |LiveIds(s, n)|
    ensures LiveIds(s, n)[a] < LiveIds(s, n)[b]
  {
    if s[n - 1].used {
      if b < |LiveIds(s, n - 1)| { LiveIdsAscend(s, n - 1, a, b); }
    } else {
      LiveIdsAscend(s, n - 1, a, b);
    }
  }
}
