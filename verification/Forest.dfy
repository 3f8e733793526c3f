/**
 Parent graphs. Every node has at most one parent edge; nothing rules out cycles.
 Total is the reference meaning of a directory total: the weight of every node
 that reaches the directory through parent edges.
 */
module Forest {
  import opened Words
  import opened Sums

  type Graph = e: seq<Option<nat>> | forall i :: 0 <= i < |e| && e[i].Some? ==> e[i].value < |e|

  /** The k-th node on the way up from i, or None when the chain is shorter. */
  ghost function Up(e: Graph, i: nat, k: nat): (r: Option<nat>)
    requires i < |e|
    ensures r.Some? ==> r.value < |e|
  {
    if k == 0 then Some(i) else
      match Up(e, i, k - 1)
      case None => None
      case Some(j) => e[j]
  }

  /** i is strictly below d. */
  ghost predicate Reaches(e: Graph, i: nat, d: nat)
  {
    i < |e| && exists k: nat :: k >= 1 && Up(e, i, k) == Some(d)
  }

  ghost predicate OnCycle(e: Graph, d: nat)
  {
    Reaches(e, d, d)
  }

  ghost predicate AtOrBelow(e: Graph, i: nat, d: nat)
  {
    i < |e| && (i == d || Reaches(e, i, d))
  }

  ghost predicate Acyclic(e: Graph)
  {
    forall d :: 0 <= d < |e| ==> !OnCycle(e, d)
  }

  // -- Chains ---------------------------------------------------------------

  lemma {:induction false} UpCompose(e: Graph, i: nat, j: nat, a: nat, b: nat)
    requires i < |e| && j < |e| && Up(e, i, a) == Some(j)
    ensures Up(e, i, a + b) == Up(e, j, b)
  {
    if b > 0 { UpCompose(e, i, j, a, b - 1); }
  }

  lemma {:induction false} UpPrefix(e: Graph, i: nat, a: nat, b: nat)
    requires i < |e| && a <= b && Up(e, i, b).Some?
    ensures Up(e, i, a).Some?
    decreases b
  {
    if a < b { UpPrefix(e, i, a, b - 1); }
  }

  lemma EdgeReaches(e: Graph, i: nat, d: nat)
    requires i < |e| && e[i] == Some(d)
    ensures Reaches(e, i, d)
  {
    assert Up(e, i, 0) == Some(i);
    assert Up(e, i, 1) == Some(d);
  }

  lemma ReachesTransitive(e: Graph, i: nat, j: nat, d: nat)
    requires Reaches(e, i, j) && Reaches(e, j, d)
    ensures Reaches(e, i, d)
  {
    var a: nat :| a >= 1 && Up(e, i, a) == Some(j);
    var b: nat :| b >= 1 && Up(e, j, b) == Some(d);
    UpCompose(e, i, j, a, b);
    assert Up(e, i, a + b) == Some(d);
  }

  /** i is below d exactly when its parent is d or lies below d. */
  lemma ReachesFirstStep(e: Graph, i: nat, d: nat)
    requires i < |e|
    ensures Reaches(e, i, d) <==> e[i].Some? && AtOrBelow(e, e[i].value, d)
  {
    assert Up(e, i, 0) == Some(i);
    assert Up(e, i, 1) == e[i];
    if Reaches(e, i, d) {
      var k: nat :| k >= 1 && Up(e, i, k) == Some(d);
      UpPrefix(e, i, 1, k);
      UpCompose(e, i, e[i].value, 1, k - 1);
      if k > 1 { assert Up(e, e[i].value, k - 1) == Some(d); }
    }
    if e[i].Some? && AtOrBelow(e, e[i].value, d) && e[i].value != d {
      EdgeReaches(e, i, e[i].value);
      ReachesTransitive(e, i, e[i].value, d);
    }
  }

  /** i is below d exactly when it is at or below some child of d. */
  lemma ReachesLastStep(e: Graph, i: nat, d: nat) returns (c: nat)
    requires Reaches(e, i, d)
    ensures c < |e| && e[c] == Some(d) && AtOrBelow(e, i, c)
  {
    var k: nat :| k >= 1 && Up(e, i, k) == Some(d);
    UpPrefix(e, i, k - 1, k);
    c := Up(e, i, k - 1).value;
    if k - 1 >= 1 { assert Reaches(e, i, c); }
  }

  /** Two nodes above the same node are comparable. */
  lemma ChainLinear(e: Graph, i: nat, a: nat, b: nat)
    requires AtOrBelow(e, i, a) && AtOrBelow(e, i, b)
    ensures AtOrBelow(e, a, b) || AtOrBelow(e, b, a)
  {
    if a != b && i != a && i != b {
      var ka: nat :| ka >= 1 && Up(e, i, ka) == Some(a);
      var kb: nat :| kb >= 1 && Up(e, i, kb) == Some(b);
      if ka < kb {
        UpCompose(e, i, a, ka, kb - ka);
        assert Up(e, a, kb - ka) == Some(b);
      } else if kb < ka {
        UpCompose(e, i, b, kb, ka - kb);
        assert Up(e, b, ka - kb) == Some(a);
      }
    }
  }

  /** Off a cycle, the child of d through which a node reaches d is unique. */
  lemma UniqueChild(e: Graph, i: nat, d: nat, c: nat, c': nat)
    requires d < |e| && !OnCycle(e, d)
    requires c < |e| && e[c] == Some(d) && AtOrBelow(e, i, c)
    requires c' < |e| && e[c'] == Some(d) && AtOrBelow(e, i, c')
    ensures c == c'
  {
    ChainLinear(e, i, c, c');
    if c != c' {
      if Reaches(e, c, c') {
        ReachesFirstStep(e, c, c');
        EdgeReaches(e, c', d);
        if d != c' { ReachesTransitive(e, d, c', d); }
      } else {
        ReachesFirstStep(e, c', c);
        EdgeReaches(e, c, d);
        if d != c { ReachesTransitive(e, d, c, d); }
      }
    }
  }

  /** A child of a node that is not on a cycle is not on a cycle either. */
  lemma ChildOffCycle(e: Graph, c: nat, d: nat)
    requires c < |e| && e[c] == Some(d) && !OnCycle(e, d)
    ensures !OnCycle(e, c)
  {
    if OnCycle(e, c) {
      ReachesFirstStep(e, c, c);
      EdgeReaches(e, c, d);
      if c != d { ReachesTransitive(e, d, c, d); }
    }
  }

  /** What a cyclic node reaches is on the cycle too. */
  lemma AboveCycle(e: Graph, x: nat, d: nat)
    requires OnCycle(e, x) && Reaches(e, x, d)
    ensures OnCycle(e, d)
  {
    var k: nat :| k >= 1 && Up(e, x, k) == Some(d);
    AboveCycleBy(e, x, d, k);
  }

  lemma {:induction false} AboveCycleBy(e: Graph, x: nat, d: nat, k: nat)
    requires OnCycle(e, x) && Up(e, x, k) == Some(d)
    ensures OnCycle(e, d)
    decreases k
  {
    if k > 0 {
      UpPrefix(e, x, k - 1, k);
      var c := Up(e, x, k - 1).value;
      AboveCycleBy(e, x, c, k - 1);
      ReachesFirstStep(e, c, c);
      EdgeReaches(e, c, d);
      if c != d { ReachesTransitive(e, d, c, d); }
    }
  }

  // -- A long enough chain repeats a node ------------------------------------

  ghost function Range(n: nat): (s: set<nat>)
    ensures |s| == n
    ensures forall x: nat :: x in s <==> x < n
  {
    if n == 0 then {} else Range(n - 1) + {n - 1}
  }

  ghost function Elements(s: seq<nat>): (r: set<nat>)
    ensures forall x :: x in r <==> x in s
  {
    if s == [] then {} else Elements(s[..|s| - 1]) + {s[|s| - 1]}
  }

  ghost predicate Distinct(s: seq<nat>)
  {
    forall a: nat, b: nat :: a < b < |s| ==> s[a] != s[b]
  }

  lemma {:induction false} DistinctSize(s: seq<nat>)
    requires Distinct(s)
    ensures |Elements(s)| == |s|
  {
    if s != [] {
      DistinctSize(s[..|s| - 1]);
    }
  }

  /** More entries than possible values: two positions hold the same one. */
  lemma Pigeonhole(s: seq<nat>, n: nat)
    requires forall k: nat :: k < |s| ==> s[k] < n
    requires |s| > n
    ensures !Distinct(s)
  {
    if Distinct(s) {
      DistinctSize(s);
      SubsetSize(Elements(s), Range(n));
    }
  }

  lemma ChainRepeats(e: Graph, i: nat) returns (a: nat, b: nat)
    requires i < |e| && Up(e, i, |e|).Some?
    ensures a < b <= |e| && Up(e, i, a) == Up(e, i, b) && Up(e, i, a).Some?
  {
    var n := |e|;
    forall k: nat | k < n + 1 ensures Up(e, i, k).Some? { UpPrefix(e, i, k, n); }
    var chain := seq(n + 1, (k: nat) requires k < n + 1 => Up(e, i, k).value);
    Pigeonhole(chain, n);
    a, b :| a < b < |chain| && chain[a] == chain[b];
  }

  lemma {:induction false} SubsetSize(s: set<nat>, t: set<nat>)
    requires s <= t
    ensures |s| <= |t|
  {
    if s != {} {
      var x :| x in s;
      SubsetSize(s - {x}, t - {x});
    }
  }

  ghost predicate ChildOf(e: Graph, c: nat, d: nat)
  {
    c < |e| && e[c] == Some(d)
  }

  ghost predicate HasChildIn(e: Graph, s: set<nat>, d: nat)
  {
    d < |e| && exists c :: c in s && ChildOf(e, c, d)
  }

  lemma {:induction false} Descend(e: Graph, s: set<nat>, d: nat, k: nat) returns (i: nat)
    requires forall x {:trigger HasChildIn(e, s, x)} :: x in s ==> HasChildIn(e, s, x)
    requires d in s
    ensures i in s && i < |e| && Up(e, i, k) == Some(d)
    decreases k
  {
    i := d;
    assert HasChildIn(e, s, d);
    if k > 0 {
      var c :| c in s && ChildOf(e, c, d);
      i := Descend(e, s, c, k - 1);
    }
  }

  /** A set in which every node has a child inside the set consists of cyclic nodes. */
  lemma ClosedUnderChildrenIsCyclic(e: Graph, s: set<nat>, d: nat)
    requires forall x {:trigger HasChildIn(e, s, x)} :: x in s ==> HasChildIn(e, s, x)
    requires d in s
    ensures OnCycle(e, d)
  {
    var i := Descend(e, s, d, |e|);
    var a, b := ChainRepeats(e, i);
    var x := Up(e, i, a).value;
    UpCompose(e, i, x, a, b - a);
    assert Up(e, x, b - a) == Some(x);
    assert OnCycle(e, x);
    UpCompose(e, i, x, a, |e| - a);
    AboveCycleBy(e, x, d, |e| - a);
  }

  // -- Totals -----------------------------------------------------------------

  ghost function BelowWeight(e: Graph, w: nat -> nat, d: nat): nat -> nat
  {
    (i: nat) => if Reaches(e, i, d) then w(i) else 0
  }

  /** The weight of everything strictly below d. */
  ghost function Total(e: Graph, w: nat -> nat, d: nat): nat
  {
    Sum(|e|, BelowWeight(e, w, d))
  }

  /** Weight of a node together with everything below it. */
  ghost function Branch(e: Graph, w: nat -> nat, d: nat): nat
  {
    w(d) + Total(e, w, d)
  }

  ghost function ChildBranch(e: Graph, w: nat -> nat, d: nat, done: set<nat>): nat -> nat
  {
    (c: nat) => if c < |e| && e[c] == Some(d) && c in done then Branch(e, w, c) else 0
  }

  /** What d has received once exactly the children in `done` have been added to it. */
  ghost function Received(e: Graph, w: nat -> nat, d: nat, done: set<nat>): nat
  {
    Sum(|e|, ChildBranch(e, w, d, done))
  }

  ghost function PathWeight(e: Graph, w: nat -> nat, d: nat): (nat, nat) -> nat
  {
    (j: nat, c: nat) => if c < |e| && e[c] == Some(d) && AtOrBelow(e, j, c) then w(j) else 0
  }

  /** Off a cycle, a total is the sum of the branches of the direct children. */
  lemma TotalByChildren(e: Graph, w: nat -> nat, d: nat, done: set<nat>)
    requires d < |e| && !OnCycle(e, d)
    requires forall c: nat :: ChildOf(e, c, d) ==> c in done
    ensures Total(e, w, d) == Received(e, w, d, done)
  {
    var n := |e|;
    var m := PathWeight(e, w, d);
    SumExchange(n, n, m);
    forall j | 0 <= j < n ensures BelowWeight(e, w, d)(j) == RowSums(m, n)(j) {
      PathRow(e, w, d, j);
    }
    SumEqual(n, BelowWeight(e, w, d), RowSums(m, n));
    forall c | 0 <= c < n ensures ChildBranch(e, w, d, done)(c) == ColumnSums(m, n)(c) {
      assert ChildOf(e, c, d) <==> e[c] == Some(d);
      PathColumn(e, w, d, c);
    }
    SumEqual(n, ChildBranch(e, w, d, done), ColumnSums(m, n));
  }

  lemma {:induction false} PathRow(e: Graph, w: nat -> nat, d: nat, j: nat)
    requires d < |e| && !OnCycle(e, d) && j < |e|
    ensures BelowWeight(e, w, d)(j) == Sum(|e|, Row(PathWeight(e, w, d), j))
  {
    var f := Row(PathWeight(e, w, d), j);
    if Reaches(e, j, d) {
      var c := ReachesLastStep(e, j, d);
      forall x | 0 <= x < |e| && x != c ensures f(x) == 0 {
        if e[x] == Some(d) && AtOrBelow(e, j, x) { UniqueChild(e, j, d, c, x); }
      }
      SumSingle(|e|, f, c);
    } else {
      forall x | 0 <= x < |e| ensures f(x) == 0 {
        if e[x] == Some(d) && AtOrBelow(e, j, x) {
          EdgeReaches(e, x, d);
          if j != x { ReachesTransitive(e, j, x, d); }
        }
      }
      SumZero(|e|, f);
    }
  }

  lemma {:induction false} PathColumn(e: Graph, w: nat -> nat, d: nat, c: nat)
    requires d < |e| && !OnCycle(e, d) && c < |e|
    ensures Sum(|e|, Column(PathWeight(e, w, d), c)) == if e[c] == Some(d) then Branch(e, w, c) else 0
  {
    var f := Column(PathWeight(e, w, d), c);
    if e[c] == Some(d) {
      ChildOffCycle(e, c, d);
      forall i: nat | i < |e| && i != c ensures f(i) == BelowWeight(e, w, c)(i) {
        assert AtOrBelow(e, i, c) == Reaches(e, i, c);
      }
      SumPoint(|e|, BelowWeight(e, w, c), f, c, w(c));
    } else {
      SumZero(|e|, f);
    }
  }

  lemma ReceivedOne(e: Graph, w: nat -> nat, c: nat, d: nat, done: set<nat>)
    requires c < |e| && c !in done
    ensures Received(e, w, d, done + {c}) == Received(e, w, d, done) + (if e[c] == Some(d) then Branch(e, w, c) else 0)
  {
    SumPoint(|e|, ChildBranch(e, w, d, done), ChildBranch(e, w, d, done + {c}), c,
             if e[c] == Some(d) then Branch(e, w, c) else 0);
  }

  lemma ReceivedSame(e: Graph, w: nat -> nat, d: nat, done: set<nat>, done': set<nat>)
    requires forall c: nat :: ChildOf(e, c, d) ==> (c in done <==> c in done')
    ensures Received(e, w, d, done) == Received(e, w, d, done')
  {
    assert forall c: nat :: c < |e| && e[c] == Some(d) ==> ChildOf(e, c, d);
    SumEqual(|e|, ChildBranch(e, w, d, done), ChildBranch(e, w, d, done'));
  }
}
