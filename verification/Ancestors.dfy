/** The bounded ancestor walk, and what it visits in a well-formed tree. */
module Ancestors {
  import opened Words
  import opened Sums
  import opened Forest
  import opened Slots

  /** Nodes visited at most: depths 0 to 256. */
  const WALK_LIMIT: nat := 257

  /** The nodes the walk visits from i, in order. */
  function Climb(s: Arena, i: nat, fuel: nat, seen: set<nat>): (r: seq<nat>)
    ensures forall d :: d in r ==> Valid(s, d) && d !in seen
    decreases fuel, |s|
  {
    if fuel == 0 || !Valid(s, i) || i in seen then []
    else if i == 0 || s[i].parent == i then [i]
    else [i] + Climb(s, s[i].parent, fuel - 1, seen + {i})
  }

  function Chain(s: Arena, i: nat): seq<nat>
  {
    Climb(s, i, WALK_LIMIT, {})
  }

  /** The slots after fn has been applied once to every node of the chain. */
  function Touch(s: Arena, chain: seq<nat>, fn: Slot -> Slot): (t: Arena)
    ensures |t| == |s|
    ensures forall i :: 0 <= i < |s| ==> t[i] == if i in chain then fn(s[i]) else s[i]
  {
    seq(|s|, (i: nat) requires i < |s| => if i in chain then fn(s[i]) else s[i])
  }

  /** fn changes nothing but totals. */
  ghost predicate OnlyTotals(fn: Slot -> Slot)
  {
    forall e :: fn(e) == e.(size := fn(e).size, files := fn(e).files)
  }

  lemma KeepsIdentity(fn: Slot -> Slot, e: Slot)
    requires OnlyTotals(fn)
    ensures fn(e).parent == e.parent && fn(e).name == e.name && fn(e).used == e.used && fn(e).isDir == e.isDir
  {
  }

  lemma TouchOne(s: Arena, chain: seq<nat>, fn: Slot -> Slot, i: nat)
    requires i < |s| && i !in chain
    ensures Touch(s, chain, fn)[i] == s[i]
    ensures Touch(s, chain, fn)[i := fn(s[i])] == Touch(s, chain + [i], fn)
  {
  }

  lemma TouchKeepsLinks(s: Arena, chain: seq<nat>, fn: Slot -> Slot, i: int)
    requires OnlyTotals(fn)
    ensures Valid(Touch(s, chain, fn), i) == Valid(s, i)
    ensures 0 <= i < |s| ==> Touch(s, chain, fn)[i].parent == s[i].parent
  {
  }

  /** t is s after visiting `visited`; a walk with this much fuel left from cur completes the chain. */
  ghost predicate Walking(s: Arena, t: Arena, fn: Slot -> Slot, visited: seq<nat>, seen: set<nat>, cur: nat, fuel: nat, chain: seq<nat>)
  {
    && (forall i :: i in visited <==> i in seen)
    && t == Touch(s, visited, fn)
    && visited + Climb(s, cur, fuel, seen) == chain
  }

  lemma WalkStart(s: Arena, fn: Slot -> Slot, idx: nat)
    ensures Walking(s, s, fn, [], {}, idx, WALK_LIMIT, Chain(s, idx))
  {
    assert s == Touch(s, [], fn);
  }

  /** One step of the walk: either it is over, or cur is visited and the walk moves on or is over. */
  lemma WalkStep(s: Arena, t: Arena, fn: Slot -> Slot, visited: seq<nat>, seen: set<nat>, cur: nat, fuel: nat, chain: seq<nat>)
    requires OnlyTotals(fn) && Walking(s, t, fn, visited, seen, cur, fuel, chain)
    ensures |t| == |s| && Valid(t, cur) == Valid(s, cur)
    ensures fuel == 0 || !Valid(t, cur) || cur in seen ==> t == Touch(s, chain, fn)
    ensures fuel != 0 && Valid(t, cur) && cur !in seen ==>
              var t' := t[cur := fn(t[cur])];
              if cur == 0 || t'[cur].parent == cur then t' == Touch(s, chain, fn)
              else Walking(s, t', fn, visited + [cur], seen + {cur}, t'[cur].parent, fuel - 1, chain)
  {
    hide OnlyTotals, Touch;
    TouchKeepsLinks(s, visited, fn, cur);
    if fuel == 0 || !Valid(t, cur) || cur in seen {
      assert visited == chain;
    } else {
      TouchOne(s, visited, fn, cur);
      KeepsIdentity(fn, s[cur]);
      assert visited + Climb(s, cur, fuel, seen) ==
             visited + [cur] + (if cur == 0 || s[cur].parent == cur then [] else Climb(s, s[cur].parent, fuel - 1, seen + {cur}));
    }
  }

  /** A tree: node 0 is a live directory, live nodes hang off live directories, no cycles. */
  ghost predicate WellFormed(s: Arena)
  {
    && IsDir(s, 0) && s[0].parent == 0
    && (forall i :: 0 < i < |s| && s[i].used ==> IsDir(s, s[i].parent) && s[i].parent != i)
    && Acyclic(Edges(s))
  }

  /** Every chain fits in one walk. */
  ghost predicate Shallow(s: Arena)
  {
    forall i :: Valid(s, i) ==> Up(Edges(s), i, WALK_LIMIT).None?
  }

  /** Each live directory stores the exact size and file count of what is below it. */
  ghost predicate ExactTotals(s: Arena)
  {
    forall d :: IsDir(s, d) ==> s[d].size == BytesBelow(s, d) && s[d].files == FilesBelow(s, d)
  }

  /** In a well-formed tree the walk visits exactly the nodes at or above its start. */
  lemma {:induction false} ClimbVisitsAncestors(s: Arena, i: nat, fuel: nat, seen: set<nat>)
    requires WellFormed(s) && Valid(s, i)
    requires Up(Edges(s), i, fuel).None?
    requires forall d :: d in seen ==> !AtOrBelow(Edges(s), i, d)
    ensures forall d :: d in Climb(s, i, fuel, seen) <==> AtOrBelow(Edges(s), i, d)
    decreases fuel
  {
    var e := Edges(s);
    assert i !in seen;
    assert Up(e, i, 0) == Some(i);
    forall d: nat ensures Reaches(e, i, d) <==> e[i].Some? && AtOrBelow(e, e[i].value, d) {
      ReachesFirstStep(e, i, d);
    }
    if i != 0 {
      var p := s[i].parent;
      assert e[i] == Some(p);
      UpCompose(e, i, p, 1, fuel - 1);
      EdgeReaches(e, i, p);
      if AtOrBelow(e, p, i) { assert Reaches(e, i, i); assert OnCycle(e, i); }
      ClimbVisitsAncestors(s, p, fuel - 1, seen + {i});
    }
  }

  lemma ChainIsAncestors(s: Arena, i: nat)
    requires WellFormed(s) && Shallow(s) && Valid(s, i)
    ensures forall d :: d in Chain(s, i) <==> AtOrBelow(Edges(s), i, d)
  {
    ClimbVisitsAncestors(s, i, WALK_LIMIT, {});
  }

  /** The walk depends on parent links and liveness alone. */
  lemma {:induction false} ClimbSame(s: Arena, t: Arena, i: nat, fuel: nat, seen: set<nat>)
    requires forall d :: d in Climb(s, i, fuel, seen) ==> d < |t| && t[d].used && t[d].parent == s[d].parent
    requires !Valid(s, i) ==> !Valid(t, i)
    requires forall d :: Valid(t, d) ==> Valid(s, d)
    ensures Climb(t, i, fuel, seen) == Climb(s, i, fuel, seen)
    decreases fuel
  {
    if fuel != 0 && Valid(s, i) && i !in seen {
      assert i in Climb(s, i, fuel, seen);
      if i != 0 && s[i].parent != i {
        assert Climb(s, i, fuel, seen) == [i] + Climb(s, s[i].parent, fuel - 1, seen + {i});
        ClimbSame(s, t, s[i].parent, fuel - 1, seen + {i});
      }
    }
  }

  /** Everything live is below the root. */
  lemma LiveBelowRoot(s: Arena, i: nat)
    requires WellFormed(s) && Valid(s, i)
    ensures AtOrBelow(Edges(s), i, 0)
  {
    var e := Edges(s);
    if !AtOrBelow(e, i, 0) {
      ClimbsForever(s, i, |e|);
      var a, b := ChainRepeats(e, i);
      var x := Up(e, i, a).value;
      UpCompose(e, i, x, a, b - a);
      assert Up(e, x, b - a) == Some(x);
      assert OnCycle(e, x);
    }
  }

  lemma {:induction false} ClimbsForever(s: Arena, i: nat, k: nat)
    requires WellFormed(s) && Valid(s, i) && !AtOrBelow(Edges(s), i, 0)
    ensures Up(Edges(s), i, k).Some? && Valid(s, Up(Edges(s), i, k).value)
  {
    var e := Edges(s);
    if k > 0 {
      ClimbsForever(s, i, k - 1);
      assert Up(e, i, k - 1).value != 0;
    }
  }

  /** Changing totals only changes neither the graph nor what files weigh. */
  lemma SameGraph(s: Arena, t: Arena)
    requires SameButTotals(s, t)
    ensures Edges(t) == Edges(s)
    ensures forall d :: BytesBelow(t, d) == BytesBelow(s, d) && FilesBelow(t, d) == FilesBelow(s, d)
  {
    assert Edges(t) == Edges(s);
    forall d ensures BytesBelow(t, d) == BytesBelow(s, d) && FilesBelow(t, d) == FilesBelow(s, d) {
      SumEqual(|s|, BelowWeight(Edges(s), SizeWeight(s), d), BelowWeight(Edges(t), SizeWeight(t), d));
      SumEqual(|s|, BelowWeight(Edges(s), CountWeight(s), d), BelowWeight(Edges(t), CountWeight(t), d));
    }
  }

  /** A walk reads links and life only. */
  lemma {:induction false} ClimbAlike(s: Arena, t: Arena, i: nat, fuel: nat, seen: set<nat>)
    requires |s| == |t| && forall k :: 0 <= k < |s| ==> s[k].used == t[k].used && s[k].parent == t[k].parent
    ensures Climb(s, i, fuel, seen) == Climb(t, i, fuel, seen)
    decreases fuel
  {
    if fuel > 0 && Valid(s, i) && i !in seen && i != 0 && s[i].parent != i {
      ClimbAlike(s, t, s[i].parent, fuel - 1, seen + {i});
    }
  }

  /** There are never more files below a node than there are nodes. */
  lemma FilesBounded(s: Arena, d: nat)
    ensures FilesBelow(s, d) <= |s|
  {
    SumAtMost(|s|, BelowWeight(Edges(s), CountWeight(s), d));
  }

  lemma {:induction false} SumAtMost(n: nat, f: nat -> nat)
    requires forall i :: 0 <= i < n ==> f(i) <= 1
    ensures Sum(n, f) <= n
  {
    if n > 0 { SumAtMost(n - 1, f); }
  }

  /** Totals only grow towards the root. */
  lemma TotalMonotone(s: Arena, w: nat -> nat, d: nat, a: nat)
    requires d < |s| && AtOrBelow(Edges(s), d, a)
    ensures Total(Edges(s), w, d) <= Total(Edges(s), w, a)
  {
    var e := Edges(s);
    forall i: nat | i < |e| && Reaches(e, i, d) ensures Reaches(e, i, a) {
      if d != a { ReachesTransitive(e, i, d, a); }
    }
    SumMonotone(|e|, BelowWeight(e, w, d), BelowWeight(e, w, a));
  }
}
