/** Listing a tree depth first: the order forward-parent trees are written in. */
module DepthFirst {
  import opened Words
  import opened Forest
  import opened Slots
  import opened Ancestors
  import opened ChildRows
  import opened Validation
  import opened Compaction
  import opened OrderedEncoder

  predicate Siblings(s: Arena, a: nat, b: nat)
  {
    a < |s| && b < |s| && HeapEdge(s, a).Some? && HeapEdge(s, a) == HeapEdge(s, b)
  }

  predicate HangsOff(s: Arena, x: nat, order: seq<nat>)
  {
    x < |s| && HeapEdge(s, x).Some? && HeapEdge(s, x).value in order
  }

  // -- What holds between pops -----------------------------------------------------------

  /** Live nodes, none twice, the root first. */
  ghost predicate Clean(s: Arena, order: seq<nat>, stack: seq<nat>)
  {
    && |s| > 0 && (forall x :: x in order || x in stack ==> x < |s| && s[x].used)
    && Distinct(order) && Distinct(stack) && (forall x :: x in order ==> x !in stack)
    && (if order == [] then stack == [0] else order[0] == 0)
  }

  /** Listed nodes follow their parents; waiting ones hang off listed ones. */
  ghost predicate Hung(s: Arena, order: seq<nat>, stack: seq<nat>)
    requires Clean(s, order, stack)
  {
    && (forall k :: 0 < k < |order| ==> order[k] in order && HangsOff(s, order[k], order[..k]))
    && (order != [] ==> forall x :: x in stack ==> HangsOff(s, x, order))
  }

  /** Children of listed nodes are listed or waiting. */
  ghost predicate Closed(s: Arena, order: seq<nat>, stack: seq<nat>)
  {
    forall i: nat :: i < |s| && HangsOff(s, i, order) ==> i in order || i in stack
  }

  /** Siblings come in slot order. */
  ghost predicate SiblingOrder(s: Arena, order: seq<nat>)
  {
    forall a, b :: 0 <= a < b < |order| && Siblings(s, order[a], order[b]) ==> order[a] < order[b]
  }

  ghost predicate StackOrder(s: Arena, order: seq<nat>, stack: seq<nat>)
    requires Clean(s, order, stack)
  {
    && (forall x, y :: 0 <= x < y < |stack| && stack[x] in stack && stack[y] in stack && Siblings(s, stack[x], stack[y]) ==> stack[x] > stack[y])
    && (forall a, b :: a in order && b in stack && Siblings(s, a, b) ==> a < b)
  }

  function Reverse(r: seq<nat>): (t: seq<nat>)
    ensures |t| == |r| && forall k :: 0 <= k < |r| ==> t[k] == r[|r| - 1 - k]
  {
    seq(|r|, (k: nat) requires k < |r| => r[|r| - 1 - k])
  }

  lemma ReverseMembers(r: seq<nat>)
    ensures forall x :: x in Reverse(r) <==> x in r
  {
    forall x: nat | x in r ensures x in Reverse(r) {
      var k :| 0 <= k < |r| && r[k] == x;
      assert Reverse(r)[|r| - 1 - k] == x;
    }
  }

  // -- One pop ------------------------------------------------------------------------------

  /** The facts about the node being popped and its children. */
  ghost predicate Pop(s: Arena, order: seq<nat>, stack: seq<nat>, idx: nat, rest: seq<nat>, kids: seq<nat>)
  {
    && Clean(s, order, stack) && Hung(s, order, stack) && Closed(s, order, stack)
    && stack == rest + [idx] && idx < |s|
    && Ascending(kids) && forall k: nat :: k in kids <==> k < |s| && HeapEdge(s, k) == Some(idx)
  }

  /** Nothing about the popped node's children was known before. */
  lemma KidsAreNew(s: Arena, order: seq<nat>, stack: seq<nat>, idx: nat, rest: seq<nat>, kids: seq<nat>, k: nat)
    requires Pop(s, order, stack, idx, rest, kids) && k in kids
    ensures k !in order && k !in stack && k != idx && k < |s| && s[k].used
  {
    assert HeapEdge(s, k) == Some(idx) && k != 0;
    assert stack[|stack| - 1] == idx && idx in stack;
    AllHang(s, order, stack);
  }

  lemma AllHang(s: Arena, order: seq<nat>, stack: seq<nat>)
    requires Clean(s, order, stack) && Hung(s, order, stack)
    ensures forall x :: (x in order || x in stack) && x != 0 ==> HangsOff(s, x, order)
  {
    hide HeapEdge;
    forall x | x in order && x != 0 ensures HangsOff(s, x, order) {
      var a :| 0 <= a < |order| && order[a] == x;
      assert HangsOff(s, order[a], order[..a]);
    }
  }

  lemma PopClean(s: Arena, order: seq<nat>, stack: seq<nat>, idx: nat, rest: seq<nat>, kids: seq<nat>)
    requires Pop(s, order, stack, idx, rest, kids)
    ensures Clean(s, order + [idx], rest + Reverse(kids))
  {
    hide Hung, Closed, HeapEdge;
    ReverseMembers(kids);
    assert stack[|stack| - 1] == idx && idx in stack;
    forall x | x in rest ensures x in stack && x != idx {
      var a :| 0 <= a < |rest| && rest[a] == x;
      assert stack[a] == x;
    }
    forall k: nat | k in kids ensures k !in order && k !in stack && k != idx && k < |s| && s[k].used {
      KidsAreNew(s, order, stack, idx, rest, kids, k);
    }
    forall a: nat, b: nat | a < b < |rest| ensures rest[a] != rest[b] { assert stack[a] != stack[b]; }
    RestDistinct(rest, kids);
  }

  lemma RestDistinct(rest: seq<nat>, kids: seq<nat>)
    requires Distinct(rest) && Ascending(kids) && forall k :: k in kids ==> k !in rest
    ensures Distinct(rest + Reverse(kids))
  {
    ReverseMembers(kids);
    var t := rest + Reverse(kids);
    forall a: nat, b: nat | a < b < |t| ensures t[a] != t[b] {
      if b >= |rest| {
        assert t[b] in Reverse(kids);
        if a < |rest| { assert t[a] in rest; }
      }
    }
  }

  lemma PopHung(s: Arena, order: seq<nat>, stack: seq<nat>, idx: nat, rest: seq<nat>, kids: seq<nat>)
    requires Pop(s, order, stack, idx, rest, kids) && Clean(s, order + [idx], rest + Reverse(kids))
    ensures Hung(s, order + [idx], rest + Reverse(kids))
  {
    hide HeapEdge;
    ReverseMembers(kids);
    var order', stack' := order + [idx], rest + Reverse(kids);
    assert stack[|stack| - 1] == idx && idx in stack;
    assert order == [] ==> |rest| == 0;
    forall k | 0 < k < |order'| ensures order'[k] in order' && HangsOff(s, order'[k], order'[..k]) {
      assert order'[..k] == if k < |order| then order[..k] else order;
    }
    forall x | x in stack' ensures HangsOff(s, x, order') {
      if x in rest {
        var a :| 0 <= a < |rest| && rest[a] == x;
        assert stack[a] == x;
      }
    }
  }

  lemma PopClosed(s: Arena, order: seq<nat>, stack: seq<nat>, idx: nat, rest: seq<nat>, kids: seq<nat>)
    requires Pop(s, order, stack, idx, rest, kids)
    ensures Closed(s, order + [idx], rest + Reverse(kids))
  {
    hide HeapEdge;
    ReverseMembers(kids);
    var order', stack' := order + [idx], rest + Reverse(kids);
    assert idx in order';
    forall i: nat | i < |s| && HangsOff(s, i, order') ensures i in order' || i in stack' {
      if HeapEdge(s, i).value == idx {
        assert i in kids;
      } else {
        assert HangsOff(s, i, order);
        if i in stack && i != idx {
          var a :| 0 <= a < |stack| && stack[a] == i;
          assert rest[a] == i;
        }
      }
    }
  }

  lemma PopOrder(s: Arena, order: seq<nat>, stack: seq<nat>, idx: nat, rest: seq<nat>, kids: seq<nat>)
    requires Pop(s, order, stack, idx, rest, kids) && StackOrder(s, order, stack) && SiblingOrder(s, order)
    ensures SiblingOrder(s, order + [idx])
  {
    hide HeapEdge;
    assert stack[|stack| - 1] == idx && idx in stack;
    var order' := order + [idx];
    forall a, b | 0 <= a < b < |order'| && Siblings(s, order'[a], order'[b]) ensures order'[a] < order'[b] {
      assert order'[a] == order[a] && order[a] in order;
    }
  }

  /** A sibling of a node that hangs off a listed node hangs off it too. */
  lemma KidHasNoOldSibling(s: Arena, order: seq<nat>, stack: seq<nat>, idx: nat, rest: seq<nat>, kids: seq<nat>, k: nat, x: nat)
    requires Pop(s, order, stack, idx, rest, kids) && k in kids && (x in order || x in stack)
    ensures !Siblings(s, x, k)
  {
    if Siblings(s, x, k) {
      assert x in kids;
      KidsAreNew(s, order, stack, idx, rest, kids, x);
    }
  }

  lemma PopStack(s: Arena, order: seq<nat>, stack: seq<nat>, idx: nat, rest: seq<nat>, kids: seq<nat>)
    requires Pop(s, order, stack, idx, rest, kids) && StackOrder(s, order, stack) && Clean(s, order + [idx], rest + Reverse(kids))
    ensures StackOrder(s, order + [idx], rest + Reverse(kids))
  {
    hide HeapEdge, Hung, Closed, Clean, Siblings;
    ReverseMembers(kids);
    var order', stack' := order + [idx], rest + Reverse(kids);
    assert stack[|stack| - 1] == idx && idx in stack;
    RestOfStack(stack, rest, idx);
    forall x, y | 0 <= x < y < |stack'| && stack'[x] in stack' && stack'[y] in stack' && Siblings(s, stack'[x], stack'[y]) ensures stack'[x] > stack'[y] {
      if y >= |rest| {
        assert stack'[y] in kids;
        if x < |rest| {
          KidHasNoOldSibling(s, order, stack, idx, rest, kids, stack'[y], stack'[x]);
        }
      } else {
        assert stack[x] == stack'[x] && stack[y] == stack'[y] && stack[x] in stack && stack[y] in stack;
      }
    }
    forall a, b | a in order' && b in stack' && Siblings(s, a, b) ensures a < b {
      if b in kids {
        KidHasNoOldSibling(s, order, stack, idx, rest, kids, b, a);
      } else {
        assert b in rest && b in stack;
        if a == idx {
          SiblingsSwap(s, a, b);
          var x :| 0 <= x < |rest| && rest[x] == b;
          assert stack[x] == b && stack[x] in stack;
        }
      }
    }
  }

  lemma RestOfStack(stack: seq<nat>, rest: seq<nat>, idx: nat)
    requires stack == rest + [idx]
    ensures forall x :: x in rest ==> x in stack
    ensures forall k :: 0 <= k < |rest| ==> stack[k] == rest[k]
  {
  }

  lemma SiblingsSwap(s: Arena, a: nat, b: nat)
    requires Siblings(s, a, b)
    ensures Siblings(s, b, a)
  {
  }

  // -- The end ------------------------------------------------------------------------------------

  /** A listing closed under children has every node that reaches the root. */
  lemma {:induction false} ReachedIsListed(s: Arena, order: seq<nat>, i: nat, k: nat)
    requires Clean(s, order, []) && order != [] && Closed(s, order, []) && i < |s| && Up(Edges(s), i, k) == Some(0)
    ensures i in order
    decreases k
  {
    hide HeapEdge;
    var e := Edges(s);
    if k == 0 {
      assert order[0] in order;
    } else {
      UpPrefix(e, i, 1, k);
      assert Up(e, i, 0) == Some(i);
      var p := Up(e, i, 1).value;
      UpCompose(e, i, p, 1, k - 1);
      ReachedIsListed(s, order, p, k - 1);
      assert HangsOff(s, i, order);
    }
  }

  lemma AllListed(host: Host, s: Arena, order: seq<nat>)
    requires ValidTree(host, s, false) && Clean(s, order, []) && order != [] && Closed(s, order, [])
    ensures forall i :: i in order <==> Valid(s, i)
  {
    hide Clean, Closed;
    ValidIsWellFormed(host, s, false);
    forall i: nat | Valid(s, i) ensures i in order {
      LiveBelowRoot(s, i);
      assert Up(Edges(s), 0, 0) == Some(0);
      var k: nat :| Up(Edges(s), i, k) == Some(0);
      ReachedIsListed(s, order, i, k);
    }
    CleanIsLive(s, order);
  }

  lemma CleanIsLive(s: Arena, order: seq<nat>)
    requires Clean(s, order, [])
    ensures forall i :: i in order ==> Valid(s, i)
  {
  }

  lemma Listing(host: Host, s: Arena, order: seq<nat>)
    requires ValidTree(host, s, false) && Clean(s, order, []) && order != [] && Hung(s, order, []) && Closed(s, order, [])
    ensures Ordering(s, order)
  {
    hide Closed, Acyclic, HeapEdge, Position;
    AllListed(host, s, order);
    forall k: nat | k < |order| ensures order[k] < |s| { assert order[k] in order; }
    if |order| > |s| { Pigeonhole(order, |s|); }
    forall k | 0 < k < |order| ensures ParentBefore(s, order, k) {
      assert HangsOff(s, order[k], order[..k]);
      ParentOfEdge(s, order[k]);
      var p := s[order[k]].parent;
      var j :| 0 <= j < k && order[..k][j] == p;
      PositionOf(order, j);
    }
  }

  lemma ParentOfEdge(s: Arena, i: nat)
    requires i < |s| && HeapEdge(s, i).Some?
    ensures HeapEdge(s, i).value == s[i].parent
  {
  }

  /** Lists the live nodes depth first, children of a node in slot order. */
  method ListDepthFirst(host: Host, s: Arena, children: Rows) returns (order: seq<nat>, remap: seq<nat>)
    requires ValidTree(host, s, false) && children == CanonRows(s)
    ensures Ordering(s, order) && Remaps(order, remap, |s|) && SiblingOrder(s, order)
  {
    hide ValidTree, Searching, Ordering, Reverse, Remaps, SiblingOrder;
    var stack: seq<nat> := [0];
    order, remap := [], seq(|s|, i => 0);
    RootListed(host, s, remap);
    while stack != []
      invariant Searching(s, order, stack) && Remaps(order, remap, |s|) && |order| <= |s|
      decreases |s| - |order|
    {
      var idx := stack[|stack| - 1];
      ghost var waiting := stack;
      stack := stack[..|stack| - 1];
      PopKeeps(s, order, remap, waiting, idx, stack);
      remap := remap[idx := |order|];
      order := order + [idx];
      stack := PushChildren(stack, children[idx]);
    }
    SearchDone(host, s, order);
  }

  /** Pushes a row last first, so that its first entry is popped first. */
  method PushChildren(stack0: seq<nat>, row: seq<nat>) returns (stack: seq<nat>)
    ensures stack == stack0 + Reverse(row)
  {
    stack := stack0;
    var j := |row|;
    while j > 0
      invariant 0 <= j <= |row| && stack == stack0 + Reverse(row)[..|row| - j]
    {
      j := j - 1;
      ReverseNext(row, j);
      stack := stack + [row[j]];
    }
  }

  /** What holds between pops. */
  ghost predicate Searching(s: Arena, order: seq<nat>, stack: seq<nat>)
  {
    && Clean(s, order, stack) && Hung(s, order, stack) && Closed(s, order, stack)
    && StackOrder(s, order, stack) && SiblingOrder(s, order)
  }

  lemma {:induction false} PopKeeps(s: Arena, order: seq<nat>, remap: seq<nat>, stack: seq<nat>, idx: nat, rest: seq<nat>)
    requires Searching(s, order, stack) && stack == rest + [idx] && Remaps(order, remap, |s|)
    ensures idx < |s| == |remap| && Remaps(order + [idx], remap[idx := |order|], |s|)
    ensures Searching(s, order + [idx], rest + Reverse(ChildIds(s, idx, |s|))) && |order| < |s|
  {
    hide Clean, Hung, Closed, StackOrder, SiblingOrder, Pop, Reverse, Remaps;
    MakePop(s, order, stack, idx, rest);
    var kids := ChildIds(s, idx, |s|);
    RemapNext(s, order, remap, idx, stack);
    PopClean(s, order, stack, idx, rest, kids);
    PopHung(s, order, stack, idx, rest, kids);
    PopClosed(s, order, stack, idx, rest, kids);
    PopOrder(s, order, stack, idx, rest, kids);
    PopStack(s, order, stack, idx, rest, kids);
    CleanFits(s, order + [idx], rest + Reverse(kids));
  }

  lemma SearchDone(host: Host, s: Arena, order: seq<nat>)
    requires ValidTree(host, s, false) && Searching(s, order, [])
    ensures Ordering(s, order) && SiblingOrder(s, order)
  {
    hide ValidTree, Hung, Closed, StackOrder, SiblingOrder;
    Listing(host, s, order);
  }

  lemma RootListed(host: Host, s: Arena, remap: seq<nat>)
    requires ValidTree(host, s, false) && |remap| == |s|
    ensures Searching(s, [], [0]) && Remaps([], remap, |s|)
  {
  }

  lemma {:induction false} MakePop(s: Arena, order: seq<nat>, stack: seq<nat>, idx: nat, rest: seq<nat>)
    requires Clean(s, order, stack) && Hung(s, order, stack) && Closed(s, order, stack) && stack == rest + [idx]
    ensures idx < |s| && idx in stack && Pop(s, order, stack, idx, rest, ChildIds(s, idx, |s|))
  {
    hide Hung, Closed;
    assert stack[|stack| - 1] == idx && idx in stack;
  }

  lemma RemapNext(s: Arena, order: seq<nat>, remap: seq<nat>, idx: nat, stack: seq<nat>)
    requires Remaps(order, remap, |s|) && Clean(s, order, stack) && idx in stack
    ensures |remap| == |s| && idx < |s| && Remaps(order + [idx], remap[idx := |order|], |s|)
  {
    forall k: nat | k < |order| ensures order[k] != idx { assert order[k] in order; }
  }

  lemma ReverseNext(r: seq<nat>, j: nat)
    requires j < |r|
    ensures Reverse(r)[..|r| - j] == Reverse(r)[..|r| - j - 1] + [r[j]]
  {
  }

  lemma CleanFits(s: Arena, order: seq<nat>, stack: seq<nat>)
    requires Clean(s, order, stack)
    ensures |order| <= |s|
  {
    forall k: nat | k < |order| ensures order[k] < |s| { assert order[k] in order; }
    if |order| > |s| { Pigeonhole(order, |s|); }
  }
}
