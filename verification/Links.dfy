/** Per-file walks: how loaded trees recompute totals, and how extra hard-link parents are added back. */
module Links {
  import opened Words
  import opened Sums
  import opened Forest
  import opened Slots
  import opened Ancestors
  import opened Worklist
  import opened Edits

  /** One walk adding a file of this size from p upwards. */
  function WalkFrom(t: Arena, p: nat, size: U64): (r: Arena)
    ensures |r| == |t|
  {
    Touch(t, Chain(t, p), AddTotals(size, 1))
  }

  // -- Extra hard-link parents on heap trees ---------------------------------------

  /** One recorded extra parent of file i; the file's size is read when its turn comes. */
  function AddLink(t: Arena, i: nat, p: nat): (r: Arena)
    requires i < |t|
    ensures |r| == |t|
  {
    if p == t[i].parent || !Valid(t, p) then t else WalkFrom(t, p, t[i].size)
  }

  function AddLinks(t: Arena, i: nat, parents: seq<nat>): (r: Arena)
    requires i < |t|
    ensures |r| == |t|
  {
    if parents == [] then t else AddLink(AddLinks(t, i, parents[..|parents| - 1]), i, parents[|parents| - 1])
  }

  function ExtrasOf(extra: map<nat, seq<nat>>, i: nat): seq<nat>
  {
    if i in extra then extra[i] else []
  }

  /** The extra parents of the first n nodes added back, in slot order. */
  function AddAllLinks(t: Arena, extra: map<nat, seq<nat>>, n: nat): (r: Arena)
    requires n <= |t|
    ensures |r| == |t|
  {
    if n == 0 then t else
      var r := AddAllLinks(t, extra, n - 1);
      if IsFile(r, n - 1) then AddLinks(r, n - 1, ExtrasOf(extra, n - 1)) else r
  }

  lemma {:induction false} NoLinks(t: Arena, n: nat)
    requires n <= |t|
    ensures AddAllLinks(t, map[], n) == t
  {
    if n > 0 { NoLinks(t, n - 1); }
  }

  // -- Per-file walks on mapped trees --------------------------------------------------

  function WalkLinks(t: Arena, own: nat, size: U64, parents: seq<nat>): (r: Arena)
    ensures |r| == |t|
  {
    if parents == [] then t else
      var r := WalkLinks(t, own, size, parents[..|parents| - 1]);
      var p := parents[|parents| - 1];
      if p == own || !Valid(r, p) then r else WalkFrom(r, p, size)
  }

  function WalkFile(t: Arena, i: nat, parents: seq<nat>): (r: Arena)
    requires i < |t|
    ensures |r| == |t|
  {
    if !IsFile(t, i) then t else WalkLinks(WalkFrom(t, t[i].parent, t[i].size), t[i].parent, t[i].size, parents)
  }

  function WalkAll(t: Arena, extra: map<nat, seq<nat>>, n: nat): (r: Arena)
    requires n <= |t|
    ensures |r| == |t|
  {
    if n == 0 then t else WalkFile(WalkAll(t, extra, n - 1), n - 1, ExtrasOf(extra, n - 1))
  }

  /** After the files below n have walked, each directory holds the capped weight of those below it. */
  ghost predicate WalkedTo(s: Arena, t: Arena, n: nat)
  {
    && SameButTotals(s, t)
    && forall d :: 0 <= d < |s| && s[d].isDir ==>
         t[d].size == Sat(Sum(n, BelowWeight(Edges(s), SizeWeight(s), d))) &&
         t[d].files == Sat(Sum(n, BelowWeight(Edges(s), CountWeight(s), d)))
  }

  lemma {:induction false} WalksAddUp(s: Arena, n: nat)
    requires WellFormed(s) && Shallow(s) && n <= |s|
    ensures WalkedTo(s, WalkAll(Zeroed(s, |s|), map[], n), n)
  {
    hide WellFormed, Shallow, Sum, WalkedTo, BelowWeight;
    if n == 0 {
      NoWalksYet(s);
    } else {
      WalksAddUp(s, n - 1);
      var t := WalkAll(Zeroed(s, |s|), map[], n - 1);
      assert ExtrasOf(map[], n - 1) == [];
      assert WalkAll(Zeroed(s, |s|), map[], n) == WalkFile(t, n - 1, []);
      WalkOneFile(s, t, n - 1);
    }
  }

  lemma NoWalksYet(s: Arena)
    ensures WalkedTo(s, WalkAll(Zeroed(s, |s|), map[], 0), 0)
  {
  }

  lemma SameTree(s: Arena, t: Arena)
    requires SameButTotals(s, t) && WellFormed(s) && Shallow(s)
    ensures WellFormed(t) && Shallow(t) && Edges(t) == Edges(s)
  {
    SameGraph(s, t);
  }

  lemma WalkOneFile(s: Arena, t: Arena, i: nat)
    requires WellFormed(s) && Shallow(s) && i < |s| && WalkedTo(s, t, i)
    ensures WalkedTo(s, WalkFile(t, i, []), i + 1)
  {
    SameTree(s, t);
    assert WalkFile(t, i, []) == if IsFile(t, i) then WalkFrom(t, t[i].parent, t[i].size) else t;
    if IsFile(s, i) && i != 0 {
      var p := s[i].parent;
      ChainIsAncestors(t, p);
      forall d: nat | d in Chain(t, p) ensures IsDir(t, d) { AboveDirIsDir(t, p, d); }
      forall d: nat | d < |s| ensures d in Chain(t, p) <==> Reaches(Edges(s), i, d) {
        ReachesFirstStep(Edges(s), i, d);
      }
      WalkOneFileAt(s, t, i);
    }
  }

  lemma WalkOneFileAt(s: Arena, t: Arena, i: nat)
    requires IsFile(s, i) && WalkedTo(s, t, i)
    requires forall d: nat :: d in Chain(t, s[i].parent) ==> IsDir(t, d)
    requires forall d: nat :: d < |s| ==> (d in Chain(t, s[i].parent) <==> Reaches(Edges(s), i, d))
    ensures WalkedTo(s, WalkFrom(t, s[i].parent, s[i].size), i + 1)
  {
    hide Climb, Chain;
    var r := WalkFrom(t, s[i].parent, s[i].size);
    assert r == Touch(t, Chain(t, s[i].parent), AddTotals(s[i].size, 1));
  }

  lemma RolledDirIsExact(s: Arena, d: nat)
    requires WellFormed(s) && d < |s| && s[d].isDir
    ensures RolledDir(s, d) == s[d].(size := Sat(BytesBelow(s, d)), files := Sat(FilesBelow(s, d)))
  {
    hide Received, Sum;
    RollUpIsExact(s, d);
  }

  /** On a shallow tree the per-file walks and the worklist roll-up compute the same slots. */
  lemma {:induction false} WalksMatchRollUp(s: Arena)
    requires WellFormed(s) && Shallow(s)
    ensures WalkAll(Zeroed(s, |s|), map[], |s|) == RollUp(s)
  {
    hide WalkAll, Received, Branch, RolledDir, Zeroed;
    WalksAddUp(s, |s|);
    var t, r := WalkAll(Zeroed(s, |s|), map[], |s|), RollUp(s);
    forall d: nat | d < |s| ensures t[d] == r[d] {
      if s[d].isDir { RolledDirIsExact(s, d); }
    }
  }
}
