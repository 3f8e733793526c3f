/**
 The directory worklist: what every step of the roll-up keeps, and why the
 directories it never drains are exactly the ones on a parent cycle.
 */
module Worklist {
  import opened Words
  import opened Sums
  import opened Forest
  import opened Slots

  /** Directory p holds the capped sum of the branches of its children in `done`. */
  ghost predicate Holds(s0: Arena, s: Arena, done: set<nat>, p: nat)
    requires p < |s|
  {
    && s[p].size == Sat(Received(Edges(s0), SizeWeight(s0), p, done))
    && s[p].files == Sat(Received(Edges(s0), CountWeight(s0), p, done))
  }

  ghost predicate Rolled(s0: Arena, s: Arena, done: set<nat>)
  {
    && SameButTotals(s0, s)
    && forall p :: 0 <= p < |s| && s0[p].isDir ==> Holds(s0, s, done, p)
  }

  /** The slots after adding (size, files) to p. */
  function Credit(s: Arena, p: nat, size: U64, files: U64): (t: Arena)
    requires p < |s|
    ensures |t| == |s|
  {
    s[p := s[p].(size := SaturatingAdd(s[p].size, size), files := SaturatingAdd(s[p].files, files))]
  }

  lemma CreditKeepsShape(s0: Arena, s: Arena, p: nat, size: U64, files: U64)
    requires SameButTotals(s0, s) && p < |s0| && s0[p].isDir
    ensures SameButTotals(s0, Credit(s, p, size, files))
  {
  }

  lemma CreditOne(s0: Arena, s: Arena, done: set<nat>, c: nat, size: U64, files: U64, q: nat)
    requires |s| == |s0| && q < |s0| && Holds(s0, s, done, q)
    requires c < |s0| && c !in done && HeapEdge(s0, c).Some?
    requires size == Sat(Branch(Edges(s0), SizeWeight(s0), c))
    requires files == Sat(Branch(Edges(s0), CountWeight(s0), c))
    ensures Holds(s0, Credit(s, HeapEdge(s0, c).value, size, files), done + {c}, q)
  {
    var e := Edges(s0);
    ReceivedOne(e, SizeWeight(s0), c, q, done);
    ReceivedOne(e, CountWeight(s0), c, q, done);
    SaturatingAddIsCappedSum(Received(e, SizeWeight(s0), q, done), Branch(e, SizeWeight(s0), c));
    SaturatingAddIsCappedSum(Received(e, CountWeight(s0), q, done), Branch(e, CountWeight(s0), c));
  }

  lemma CreditBranch(s0: Arena, s: Arena, done: set<nat>, c: nat, size: U64, files: U64)
    requires Rolled(s0, s, done)
    requires c < |s0| && c !in done && HeapEdge(s0, c).Some?
    requires size == Sat(Branch(Edges(s0), SizeWeight(s0), c))
    requires files == Sat(Branch(Edges(s0), CountWeight(s0), c))
    ensures Rolled(s0, Credit(s, HeapEdge(s0, c).value, size, files), done + {c})
  {
    var t := Credit(s, HeapEdge(s0, c).value, size, files);
    CreditKeepsShape(s0, s, HeapEdge(s0, c).value, size, files);
    forall q | 0 <= q < |t| && s0[q].isDir ensures Holds(s0, t, done + {c}, q) {
      CreditOne(s0, s, done, c, size, files, q);
    }
  }

  lemma SkipUnlinked(s0: Arena, s: Arena, done: set<nat>, c: nat)
    requires Rolled(s0, s, done)
    requires c < |s0| && c !in done && HeapEdge(s0, c).None?
    ensures Rolled(s0, s, done + {c})
  {
    var e := Edges(s0);
    forall q | 0 <= q < |s| && s0[q].isDir ensures Holds(s0, s, done + {c}, q) {
      assert Holds(s0, s, done, q);
      ReceivedOne(e, SizeWeight(s0), c, q, done);
      ReceivedOne(e, CountWeight(s0), c, q, done);
    }
  }

  lemma StartsEmpty(s0: Arena, s: Arena)
    requires SameButTotals(s0, s)
    requires forall p :: 0 <= p < |s| && s[p].isDir ==> s[p].size == 0 && s[p].files == 0
    ensures Rolled(s0, s, {})
  {
    var e := Edges(s0);
    forall p | 0 <= p < |s| && s0[p].isDir ensures Holds(s0, s, {}, p) {
      SumZero(|e|, ChildBranch(e, SizeWeight(s0), p, {}));
      SumZero(|e|, ChildBranch(e, CountWeight(s0), p, {}));
    }
  }

  lemma FileBranch(s: Arena, f: nat)
    requires f < |s| && s[f].used && !s[f].isDir
    ensures Branch(Edges(s), SizeWeight(s), f) == s[f].size
    ensures Branch(Edges(s), CountWeight(s), f) == 1
  {
    NothingBelowFile(s, SizeWeight(s), f);
    NothingBelowFile(s, CountWeight(s), f);
  }

  function Zeroed(s: Arena, n: nat): (t: Arena)
    requires n <= |s|
    ensures |t| == |s|
    ensures forall i :: 0 <= i < |s| ==> t[i] == if i < n && s[i].isDir then s[i].(size := 0, files := 0) else s[i]
  {
    seq(|s|, (i: nat) requires i < |s| => if i < n && s[i].isDir then s[i].(size := 0, files := 0) else s[i])
  }

  lemma ZeroedIsRolled(s: Arena)
    ensures Rolled(s, Zeroed(s, |s|), {})
  {
    StartsEmpty(s, Zeroed(s, |s|));
  }

  /** The files among the first n nodes. */
  ghost function NonDirs(s: Arena, n: nat): (r: set<nat>)
    requires n <= |s|
    ensures forall i :: i in r <==> 0 <= i < n && !s[i].isDir
  {
    set i: nat | i in Range(n) && !s[i].isDir
  }

  /** The slots after node i has been looked at by the file pass. */
  function FileCredit(s: Arena, i: nat): (t: Arena)
    requires i < |s|
    ensures |t| == |s|
  {
    var p := HeapEdge(s, i);
    if p.Some? && !s[i].isDir then Credit(s, p.value, s[i].size, 1) else s
  }

  lemma FilePass(s0: Arena, s: Arena, i: nat)
    requires i < |s0| == |s| && Rolled(s0, s, NonDirs(s0, i))
    ensures HeapEdge(s, i) == HeapEdge(s0, i) && s[i].isDir == s0[i].isDir
    ensures Rolled(s0, FileCredit(s, i), NonDirs(s0, i + 1))
  {
    hide Holds, Received, Branch, Credit;
    if s0[i].isDir {
      assert NonDirs(s0, i + 1) == NonDirs(s0, i);
    } else {
      assert NonDirs(s0, i + 1) == NonDirs(s0, i) + {i};
      if HeapEdge(s0, i).Some? {
        FileBranch(s0, i);
        CreditBranch(s0, s, NonDirs(s0, i), i, s[i].size, 1);
      } else {
        SkipUnlinked(s0, s, NonDirs(s0, i), i);
      }
    }
  }

  // -- Pending counts -----------------------------------------------------------

  /** Counts 1 for a child directory of p that is not in `done`. */
  ghost function Waiting(s: Arena, p: nat, done: set<nat>): nat -> nat
  {
    (c: nat) => if c < |s| && HeapEdge(s, c) == Some(p) && s[c].isDir && c !in done then 1 else 0
  }

  ghost predicate Counts(s: Arena, pending: seq<nat>, done: set<nat>)
  {
    && |pending| == |s|
    && forall p :: 0 <= p < |s| ==> pending[p] == Sum(|s|, Waiting(s, p, done))
  }

  /** pending[p] counts the child directories of p among the first n nodes. */
  ghost predicate CountsUpTo(s: Arena, pending: seq<nat>, n: nat)
  {
    |pending| == |s| && forall p :: 0 <= p < |s| ==> pending[p] == Sum(n, Waiting(s, p, {}))
  }

  lemma StartCounts(s: Arena, pending: seq<nat>)
    requires |pending| == |s| && forall p :: 0 <= p < |s| ==> pending[p] == 0
    ensures CountsUpTo(s, pending, 0)
  {
  }

  lemma CountStep(s: Arena, pending: seq<nat>, i: nat)
    requires i < |s| && CountsUpTo(s, pending, i)
    ensures CountsUpTo(s, if s[i].isDir && HeapEdge(s, i).Some?
                          then pending[HeapEdge(s, i).value := pending[HeapEdge(s, i).value] + 1] else pending, i + 1)
  {
  }

  lemma CountedAll(s: Arena, pending: seq<nat>)
    requires CountsUpTo(s, pending, |s|)
    ensures Counts(s, pending, NonDirs(s, |s|))
  {
    forall p | 0 <= p < |s| ensures pending[p] == Sum(|s|, Waiting(s, p, NonDirs(s, |s|))) {
      SumEqual(|s|, Waiting(s, p, {}), Waiting(s, p, NonDirs(s, |s|)));
    }
  }

  lemma {:induction false} PendingZero(s: Arena, p: nat, done: set<nat>)
    ensures Sum(|s|, Waiting(s, p, done)) == 0 <==>
            forall c: nat :: ChildOf(Edges(s), c, p) && s[c].isDir ==> c in done
  {
    var f := Waiting(s, p, done);
    SumZero(|s|, f);
    if forall c: nat :: ChildOf(Edges(s), c, p) && s[c].isDir ==> c in done {
      forall c: nat | c < |s| ensures f(c) == 0 {
        assert ChildOf(Edges(s), c, p) <==> HeapEdge(s, c) == Some(p);
      }
    } else {
      var c: nat :| ChildOf(Edges(s), c, p) && s[c].isDir && c !in done;
      assert f(c) == 1;
    }
  }

  lemma {:induction false} PendingDrain(s: Arena, p: nat, done: set<nat>, d: nat)
    requires d < |s| && s[d].isDir && d !in done
    ensures Sum(|s|, Waiting(s, p, done)) == Sum(|s|, Waiting(s, p, done + {d})) + (if HeapEdge(s, d) == Some(p) then 1 else 0)
  {
    SumPoint(|s|, Waiting(s, p, done + {d}), Waiting(s, p, done), d, if HeapEdge(s, d) == Some(p) then 1 else 0);
  }

  // -- The worklist invariant ----------------------------------------------------

  /** Drained directories have drained children, and lie on no cycle. */
  ghost predicate DrainedOrder(s: Arena, done: set<nat>)
  {
    && done <= Range(|s|)
    && (forall f :: 0 <= f < |s| && !s[f].isDir ==> f in done)
    && (forall d :: d in done ==> !OnCycle(Edges(s), d))
    && (forall c: nat, d: nat {:trigger ChildOf(Edges(s), c, d)} :: d in done && ChildOf(Edges(s), c, d) ==> c in done)
  }

  ghost predicate ReadyList(s: Arena, pending: seq<nat>, ready: seq<nat>, done: set<nat>)
    requires |pending| == |s|
  {
    && Distinct(ready)
    && (forall d :: d in ready ==> IsDir(s, d) && pending[d] == 0 && d !in done)
    && (forall d :: IsDir(s, d) && d !in done && pending[d] == 0 ==> d in ready)
  }

  ghost predicate WorkInvariant(s0: Arena, s: Arena, pending: seq<nat>, ready: seq<nat>, done: set<nat>)
  {
    && Rolled(s0, s, done)
    && Counts(s0, pending, done)
    && DrainedOrder(s0, done)
    && ReadyList(s0, pending, ready, done)
  }

  lemma StartOrder(s: Arena)
    ensures DrainedOrder(s, NonDirs(s, |s|))
  {
    var done := NonDirs(s, |s|);
    forall d | d in done ensures !OnCycle(Edges(s), d) { NothingBelowFile(s, SizeWeight(s), d); }
    forall c: nat, d: nat {:trigger ChildOf(Edges(s), c, d)} | d in done ensures !ChildOf(Edges(s), c, d) {
      FileHasNoChildren(s, c, d);
    }
    forall x | x in done ensures x in Range(|s|) {}
  }

  /** The directories among the first n with nothing to wait for. */
  function Idle(s: Arena, pending: seq<nat>, n: nat): (r: seq<nat>)
    requires n <= |s| == |pending|
    ensures forall d :: d in r <==> d < n && IsDir(s, d) && pending[d] == 0
    ensures Distinct(r)
  {
    if n == 0 then [] else
      var r := Idle(s, pending, n - 1);
      if IsDir(s, n - 1) && pending[n - 1] == 0 then r + [n - 1] else r
  }

  /** A drained node is off every cycle, so a node all of whose children are drained is too. */
  lemma ReadyIsOffCycle(e: Graph, d: nat, done: set<nat>)
    requires d !in done && forall c :: c in done ==> !OnCycle(e, c)
    requires forall c: nat :: ChildOf(e, c, d) ==> c in done
    ensures !OnCycle(e, d)
  {
    if OnCycle(e, d) {
      var c := ReachesLastStep(e, d, d);
      assert ChildOf(e, c, d);
      if c != d {
        EdgeReaches(e, c, d);
        ReachesTransitive(e, c, d, c);
      }
    }
  }

  /** A directory none of whose child directories is waiting is off every cycle and holds its exact capped total. */
  lemma ReadyIsExact(s0: Arena, s: Arena, pending: seq<nat>, ready: seq<nat>, done: set<nat>, d: nat)
    requires WorkInvariant(s0, s, pending, ready, done)
    requires d in ready
    ensures d < |s0| && s0[d].isDir && d !in done
    ensures !OnCycle(Edges(s0), d)
    ensures forall c: nat :: ChildOf(Edges(s0), c, d) ==> c in done
    ensures s[d].size == Sat(Branch(Edges(s0), SizeWeight(s0), d))
    ensures s[d].files == Sat(Branch(Edges(s0), CountWeight(s0), d))
  {
    var e := Edges(s0);
    PendingZero(s0, d, done);
    ReadyIsOffCycle(e, d, done);
    assert Holds(s0, s, done, d);
    TotalByChildren(e, SizeWeight(s0), d, done);
    TotalByChildren(e, CountWeight(s0), d, done);
  }

  /** Draining d keeps the counts, given what happens to its parent's count. */
  lemma DrainCounts(s0: Arena, pending: seq<nat>, done: set<nat>, d: nat)
    requires Counts(s0, pending, done)
    requires d < |s0| && s0[d].isDir && d !in done
    ensures HeapEdge(s0, d).Some? ==> pending[HeapEdge(s0, d).value] > 0
    ensures Counts(s0, if HeapEdge(s0, d).Some? && pending[HeapEdge(s0, d).value] > 0
                       then pending[HeapEdge(s0, d).value := pending[HeapEdge(s0, d).value] - 1] else pending, done + {d})
  {
    forall p | 0 <= p < |s0|
      ensures pending[p] == Sum(|s0|, Waiting(s0, p, done + {d})) + (if HeapEdge(s0, d) == Some(p) then 1 else 0)
    {
      PendingDrain(s0, p, done, d);
    }
  }

  lemma DrainOrder(s0: Arena, done: set<nat>, d: nat)
    requires DrainedOrder(s0, done) && d < |s0| && !OnCycle(Edges(s0), d)
    requires forall c: nat :: ChildOf(Edges(s0), c, d) ==> c in done
    ensures DrainedOrder(s0, done + {d})
  {
  }

  /** The worklist after popping d: its parent, if any, is credited and perhaps becomes ready. */
  datatype Work = Work(slots: Arena, pending: seq<nat>, ready: seq<nat>)

  ghost predicate WorkOk(s0: Arena, k: Work, done: set<nat>)
  {
    WorkInvariant(s0, k.slots, k.pending, k.ready, done)
  }

  function Popped(k: Work): (k': Work)
    requires |k.pending| == |k.slots| && k.ready != [] && k.ready[|k.ready| - 1] < |k.slots|
    ensures |k'.pending| == |k'.slots|
  {
    var d, rest := k.ready[|k.ready| - 1], k.ready[..|k.ready| - 1];
    match HeapEdge(k.slots, d)
    case None => Work(k.slots, k.pending, rest)
    case Some(p) =>
      var left := if k.pending[p] > 0 then k.pending[p] - 1 else 0;
      Work(Credit(k.slots, p, k.slots[d].size, k.slots[d].files), k.pending[p := left], if left == 0 then rest + [p] else rest)
  }

  lemma ReadyAfterPop(s: Arena, pending: seq<nat>, ready: seq<nat>, done: set<nat>)
    requires |pending| == |s| && ReadyList(s, pending, ready, done) && ready != []
    ensures ReadyList(s, pending, ready[..|ready| - 1], done + {ready[|ready| - 1]})
  {
    var n := |ready| - 1;
    var d, rest := ready[n], ready[..n];
    forall x ensures x in ready <==> x in rest || x == d {
      if x in ready { var j :| 0 <= j < |ready| && ready[j] == x; if j < n { assert rest[j] == x; } }
    }
    assert d !in rest;
  }

  lemma ReadyAfterCount(s: Arena, pending: seq<nat>, ready: seq<nat>, done: set<nat>, p: nat, left: nat)
    requires |pending| == |s| && ReadyList(s, pending, ready, done)
    requires IsDir(s, p) && p !in done && pending[p] > 0
    ensures ReadyList(s, pending[p := left], if left == 0 then ready + [p] else ready, done)
  {
    assert p !in ready;
  }

  lemma ParentWaits(s0: Arena, k: Work, done: set<nat>, d: nat)
    requires WorkOk(s0, k, done) && d in k.ready && d < |s0| && HeapEdge(s0, d).Some?
    ensures IsDir(s0, HeapEdge(s0, d).value) && HeapEdge(s0, d).value !in done + {d}
    ensures k.pending[HeapEdge(s0, d).value] > 0
  {
    var p := HeapEdge(s0, d).value;
    DrainCounts(s0, k.pending, done, d);
    assert ChildOf(Edges(s0), d, p);
  }

  lemma PopBasics(s0: Arena, k: Work, done: set<nat>)
    requires WorkOk(s0, k, done) && k.ready != []
    ensures |k.pending| == |k.slots| == |s0| && ReadyList(s0, k.pending, k.ready, done)
    ensures k.ready[|k.ready| - 1] in k.ready && k.ready[|k.ready| - 1] < |s0|
    ensures HeapEdge(k.slots, k.ready[|k.ready| - 1]) == HeapEdge(s0, k.ready[|k.ready| - 1])
  {
  }

  lemma PoppedReady(s0: Arena, k: Work, done: set<nat>)
    requires WorkOk(s0, k, done) && k.ready != []
    ensures k.ready[|k.ready| - 1] < |k.slots| && |k.pending| == |k.slots|
    ensures ReadyList(s0, Popped(k).pending, Popped(k).ready, done + {k.ready[|k.ready| - 1]})
  {
    hide WorkOk, Distinct;
    PopBasics(s0, k, done);
    var d, rest := k.ready[|k.ready| - 1], k.ready[..|k.ready| - 1];
    ReadyAfterPop(s0, k.pending, k.ready, done);
    if HeapEdge(s0, d).Some? {
      var p := HeapEdge(s0, d).value;
      ParentWaits(s0, k, done, d);
      ReadyAfterCount(s0, k.pending, rest, done + {d}, p, k.pending[p] - 1);
    }
  }

  /** Popping a directory keeps the invariant: it is drained for good. */
  lemma PopKeepsInvariant(s0: Arena, k: Work, done: set<nat>)
    requires WorkOk(s0, k, done) && k.ready != []
    ensures k.ready[|k.ready| - 1] < |k.slots| && |k.pending| == |k.slots|
    ensures k.ready[|k.ready| - 1] !in done
    ensures WorkOk(s0, Popped(k), done + {k.ready[|k.ready| - 1]})
  {
    hide Distinct, Sum;
    var d := k.ready[|k.ready| - 1];
    ReadyIsExact(s0, k.slots, k.pending, k.ready, done, d);
    assert HeapEdge(k.slots, d) == HeapEdge(s0, d);
    DrainOrder(s0, done, d);
    DrainCounts(s0, k.pending, done, d);
    PoppedReady(s0, k, done);
    if HeapEdge(s0, d).Some? {
      CreditBranch(s0, k.slots, done, d, k.slots[d].size, k.slots[d].files);
    } else {
      SkipUnlinked(s0, k.slots, done, d);
    }
  }

  /** The worklist starts out with the idle directories, all files rolled up. */
  lemma {:induction false} StartWork(s0: Arena, s: Arena, pending: seq<nat>)
    requires Rolled(s0, s, NonDirs(s0, |s0|)) && CountsUpTo(s0, pending, |s0|)
    ensures |pending| == |s|
    ensures WorkOk(s0, Work(s, pending, Idle(s, pending, |s|)), NonDirs(s0, |s0|))
  {
    CountedAll(s0, pending);
    StartOrder(s0);
    IdleSame(s0, s, pending, |s|);
  }

  lemma {:induction false} IdleSame(s0: Arena, s: Arena, pending: seq<nat>, n: nat)
    requires SameButTotals(s0, s) && n <= |s| == |pending|
    ensures Idle(s, pending, n) == Idle(s0, pending, n)
  {
    if n > 0 { IdleSame(s0, s, pending, n - 1); }
  }

  /** Each pop drains one more of finitely many nodes. */
  lemma DrainedGrows(s0: Arena, k: Work, done: set<nat>)
    requires WorkOk(s0, k, done) && k.ready != []
    ensures |done| < |done + {k.ready[|k.ready| - 1]}| <= |s0|
  {
    var d := k.ready[|k.ready| - 1];
    PopBasics(s0, k, done);
    assert d !in done;
    SubsetSize(done + {d}, Range(|s0|));
  }

  ghost function Stuck(s0: Arena, done: set<nat>): (r: set<nat>)
    ensures forall x :: x in r <==> IsDir(s0, x) && x !in done
  {
    set x: nat | x in Range(|s0|) && IsDir(s0, x) && x !in done
  }

  lemma StuckHasStuckChild(s0: Arena, s: Arena, pending: seq<nat>, done: set<nat>, x: nat)
    requires WorkInvariant(s0, s, pending, [], done)
    requires IsDir(s0, x) && x !in done
    ensures HasChildIn(Edges(s0), Stuck(s0, done), x)
  {
    PendingZero(s0, x, done);
    var c: nat :| ChildOf(Edges(s0), c, x) && s0[c].isDir && c !in done;
    assert HeapEdge(s0, c) == Some(x);
    assert c in Stuck(s0, done);
  }

  /** When the worklist is empty, the directories left over are the ones on a cycle. */
  lemma LeftoversAreCyclic(s0: Arena, s: Arena, pending: seq<nat>, done: set<nat>, d: nat)
    requires WorkInvariant(s0, s, pending, [], done)
    requires IsDir(s0, d)
    ensures d in done <==> !OnCycle(Edges(s0), d)
  {
    var e, left := Edges(s0), Stuck(s0, done);
    if d in left {
      assert forall x {:trigger HasChildIn(e, left, x)} :: x in left ==> HasChildIn(e, left, x) by {
        forall x {:trigger HasChildIn(e, left, x)} | x in left ensures HasChildIn(e, left, x) {
          StuckHasStuckChild(s0, s, pending, done, x);
        }
      }
      ClosedUnderChildrenIsCyclic(e, left, d);
    }
  }

  /** What a directory holds in the end: the capped sum over the children that are not on a cycle. */
  ghost function OffCycle(s: Arena): (r: set<nat>)
    ensures forall c :: c in r <==> 0 <= c < |s| && !OnCycle(Edges(s), c)
  {
    set c: nat | c in Range(|s|) && !OnCycle(Edges(s), c)
  }

  /** The slots after the roll-up: every directory's totals, whatever the parent graph. */
  ghost function RollUp(s: Arena): (t: Arena)
    ensures |t| == |s|
    ensures forall i :: 0 <= i < |s| ==> t[i] == if s[i].isDir then RolledDir(s, i) else s[i]
  {
    seq(|s|, (i: nat) requires i < |s| => if s[i].isDir then RolledDir(s, i) else s[i])
  }

  ghost function RolledDir(s: Arena, d: nat): Slot
    requires d < |s|
  {
    s[d].(size := Sat(Received(Edges(s), SizeWeight(s), d, OffCycle(s))),
          files := Sat(Received(Edges(s), CountWeight(s), d, OffCycle(s))))
  }

  lemma WorklistResult(s0: Arena, s: Arena, pending: seq<nat>, done: set<nat>)
    requires WorkInvariant(s0, s, pending, [], done)
    ensures s == RollUp(s0)
  {
    var e := Edges(s0);
    forall p | 0 <= p < |s| && s0[p].isDir ensures Holds(s0, s, OffCycle(s0), p) {
      assert Holds(s0, s, done, p);
      forall c: nat | ChildOf(e, c, p) ensures c in done <==> c in OffCycle(s0) {
        if s0[c].isDir { LeftoversAreCyclic(s0, s, pending, done, c); }
      }
      ReceivedSame(e, SizeWeight(s0), p, done, OffCycle(s0));
      ReceivedSame(e, CountWeight(s0), p, done, OffCycle(s0));
    }
  }

  lemma WorkDone(s0: Arena, k: Work, done: set<nat>)
    requires WorkOk(s0, k, done) && k.ready == []
    ensures k.slots == RollUp(s0)
  {
    WorklistResult(s0, k.slots, k.pending, done);
  }

  /** Off every cycle, the roll-up leaves each directory with the capped weight of all files below it. */
  lemma RollUpIsExact(s0: Arena, d: nat)
    requires d < |s0| && s0[d].isDir && !OnCycle(Edges(s0), d)
    ensures RollUp(s0)[d].size == Sat(BytesBelow(s0, d))
    ensures RollUp(s0)[d].files == Sat(FilesBelow(s0, d))
  {
    var e := Edges(s0);
    forall c: nat | ChildOf(e, c, d) ensures c in OffCycle(s0) { ChildOffCycle(e, c, d); }
    TotalByChildren(e, SizeWeight(s0), d, OffCycle(s0));
    TotalByChildren(e, CountWeight(s0), d, OffCycle(s0));
  }
}
