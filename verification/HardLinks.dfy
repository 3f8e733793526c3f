/** Extra hard-link parents: when totals that include them survive a recomputation. */
module HardLinks {
  import opened Words
  import opened Sums
  import opened Forest
  import opened Slots
  import opened Ancestors
  import opened Worklist
  import opened Edits
  import opened Links

  /** A file seen under one more directory. */
  datatype Link = Link(file: nat, parent: nat, size: U64)

  /** The same nodes and edges; totals may differ. */
  ghost predicate SameShape(s: Arena, t: Arena)
  {
    |s| == |t| && forall i :: 0 <= i < |s| ==> t[i] == s[i].(size := t[i].size, files := t[i].files)
  }

  lemma ShapeKeepsChain(s: Arena, t: Arena, p: nat)
    requires SameShape(s, t)
    ensures Chain(s, p) == Chain(t, p)
  {
    ClimbAlike(s, t, p, WALK_LIMIT, {});
  }

  lemma ChainLive(s: Arena, p: nat)
    ensures forall d :: d in Chain(s, p) ==> Valid(s, d)
  {
  }

  lemma ShapeFile(s: Arena, t: Arena, i: nat)
    requires SameShape(s, t)
    ensures IsFile(s, i) == IsFile(t, i) && |s| == |t|
  {
  }

  // -- Many walks ---------------------------------------------------------------------

  function WalkEach(t: Arena, links: seq<Link>): (r: Arena)
    ensures |r| == |t|
  {
    if links == [] then t else
      var r := WalkEach(t, links[..|links| - 1]);
      WalkFrom(r, links[|links| - 1].parent, links[|links| - 1].size)
  }

  /** What the links add to node d. */
  function Gain(s: Arena, links: seq<Link>, d: nat): nat
  {
    if links == [] then 0 else
      Gain(s, links[..|links| - 1], d) + (if d in Chain(s, links[|links| - 1].parent) then links[|links| - 1].size else 0)
  }

  function Visits(s: Arena, links: seq<Link>, d: nat): nat
  {
    if links == [] then 0 else
      Visits(s, links[..|links| - 1], d) + (if d in Chain(s, links[|links| - 1].parent) then 1 else 0)
  }

  /** However many links there are, a node ends at its total plus what they add, capped once. */
  lemma {:induction false} WalksAdd(s: Arena, links: seq<Link>)
    ensures SameShape(s, WalkEach(s, links))
    ensures forall d: nat :: d < |s| ==>
              WalkEach(s, links)[d].size == Sat(s[d].size + Gain(s, links, d)) && WalkEach(s, links)[d].files == Sat(s[d].files + Visits(s, links, d))
  {
    hide Chain, Climb;
    if links != [] {
      var n := |links| - 1;
      WalksAdd(s, links[..n]);
      var r := WalkEach(s, links[..n]);
      ShapeKeepsChain(s, r, links[n].parent);
      assert WalkEach(s, links) == WalkFrom(r, links[n].parent, links[n].size);
    }
  }

  lemma {:induction false} GainAppend(s: Arena, a: seq<Link>, b: seq<Link>, d: nat)
    ensures Gain(s, a + b, d) == Gain(s, a, d) + Gain(s, b, d) && Visits(s, a + b, d) == Visits(s, a, d) + Visits(s, b, d)
  {
    if b == [] {
      assert a + b == a;
    } else {
      assert (a + b)[..|a + b| - 1] == a + b[..|b| - 1];
      GainAppend(s, a, b[..|b| - 1], d);
    }
  }

  lemma OneLess(a': seq<Link>, x: seq<Link>, y: seq<Link>, l: Link, a: seq<Link>, b: seq<Link>)
    requires a != [] && a' == a[..|a| - 1] && l == a[|a| - 1] && b == x + [l] + y && multiset(a) == multiset(b)
    ensures a == a' + [l] && multiset(a') == multiset(x + y)
  {
    assert a == a' + [l];
    assert multiset(a) == multiset(a') + multiset{l};
    assert multiset(b) == multiset(x) + multiset{l} + multiset(y);
    assert multiset(a) - multiset{l} == multiset(a');
  }

  /** The order of the links does not matter. */
  lemma {:induction false} GainAnyOrder(s: Arena, a: seq<Link>, b: seq<Link>, d: nat)
    requires multiset(a) == multiset(b)
    ensures Gain(s, a, d) == Gain(s, b, d) && Visits(s, a, d) == Visits(s, b, d)
  {
    hide Chain;
    if a == [] {
      assert |multiset(b)| == 0;
      assert b == [];
    } else {
      var l := a[|a| - 1];
      assert l in multiset(b);
      var k :| 0 <= k < |b| && b[k] == l;
      var x, y, one := b[..k], b[k + 1..], [l];
      assert b == x + one + y;
      OneLess(a[..|a| - 1], x, y, l, a, b);
      GainAnyOrder(s, a[..|a| - 1], x + y, d);
      GainAppend(s, a[..|a| - 1], one, d);
      GainAppend(s, x + one, y, d);
      GainAppend(s, x, one, d);
      GainAppend(s, x, y, d);
    }
  }

  lemma {:induction false} WalksAnyOrder(s: Arena, a: seq<Link>, b: seq<Link>)
    requires multiset(a) == multiset(b)
    ensures WalkEach(s, a) == WalkEach(s, b)
  {
    WalksAdd(s, a);
    WalksAdd(s, b);
    forall d: nat | d < |s| ensures WalkEach(s, a)[d] == WalkEach(s, b)[d] { GainAnyOrder(s, a, b, d); }
  }

  // -- The links a recomputation replays -----------------------------------------------------

  function LinksOf(s: Arena, i: nat, parents: seq<nat>): (r: seq<Link>)
    requires i < |s|
  {
    if parents == [] then [] else
      var r, p := LinksOf(s, i, parents[..|parents| - 1]), parents[|parents| - 1];
      if p == s[i].parent || !Valid(s, p) then r else r + [Link(i, p, s[i].size)]
  }

  /** The recorded links of the first n nodes, in slot order. */
  function Replayed(s: Arena, extra: map<nat, seq<nat>>, n: nat): (r: seq<Link>)
    requires n <= |s|
  {
    if n == 0 then [] else
      var r := Replayed(s, extra, n - 1);
      if IsFile(s, n - 1) then r + LinksOf(s, n - 1, ExtrasOf(extra, n - 1)) else r
  }

  lemma {:induction false} LinksOfAre(s: Arena, i: nat, parents: seq<nat>, l: Link)
    requires i < |s|
    ensures l in LinksOf(s, i, parents) <==> l.file == i && l.size == s[i].size && l.parent in parents && l.parent != s[i].parent && Valid(s, l.parent)
  {
    if parents != [] {
      LinksOfAre(s, i, parents[..|parents| - 1], l);
      assert parents == parents[..|parents| - 1] + [parents[|parents| - 1]];
    }
  }

  /** A link is replayed exactly when its file is live and has that size, and its parent is recorded for it, live, and not the file's own. */
  lemma {:induction false} ReplayedAre(s: Arena, extra: map<nat, seq<nat>>, n: nat, l: Link)
    requires n <= |s|
    ensures l in Replayed(s, extra, n) <==>
            l.file < n && IsFile(s, l.file) && l.size == s[l.file].size && l.parent in ExtrasOf(extra, l.file) && l.parent != s[l.file].parent && Valid(s, l.parent)
  {
    hide LinksOf, ExtrasOf;
    if n > 0 {
      ReplayedAre(s, extra, n - 1, l);
      if IsFile(s, n - 1) { LinksOfAre(s, n - 1, ExtrasOf(extra, n - 1), l); }
    }
  }

  /** Walks over these links meet directories only. */
  ghost predicate DirsOnly(s: Arena, links: seq<Link>)
  {
    forall l :: l in links ==> DirsAbove(s, l.parent)
  }

  ghost predicate DirsAbove(s: Arena, p: nat)
  {
    forall d :: d in Chain(s, p) ==> s[d].isDir
  }

  /** t is s with other totals in its directories. */
  lemma {:induction false} WalksKeepFiles(s: Arena, links: seq<Link>)
    requires DirsOnly(s, links)
    ensures forall i :: 0 <= i < |s| && !s[i].isDir ==> WalkEach(s, links)[i] == s[i]
  {
    hide Chain, Climb;
    if links != [] {
      var n := |links| - 1;
      WalksKeepFiles(s, links[..n]);
      WalksAdd(s, links[..n]);
      ShapeKeepsChain(s, WalkEach(s, links[..n]), links[n].parent);
      assert links[n] in links;
      assert DirsAbove(s, links[n].parent);
      assert WalkEach(s, links) == WalkFrom(WalkEach(s, links[..n]), links[n].parent, links[n].size);
    }
  }

  lemma {:induction false} WalkEachAppend(s: Arena, a: seq<Link>, b: seq<Link>)
    ensures WalkEach(s, a + b) == WalkEach(WalkEach(s, a), b)
  {
    if b == [] {
      assert a + b == a;
    } else {
      assert (a + b)[..|a + b| - 1] == a + b[..|b| - 1];
      WalkEachAppend(s, a, b[..|b| - 1]);
    }
  }

  /** While walks meet directories only, a file's size is the same whenever its links are replayed. */
  lemma {:induction false} ReplayOne(s: Arena, t: Arena, i: nat, parents: seq<nat>)
    requires SameShape(s, t) && i < |s| && !s[i].isDir && t[i] == s[i] && DirsOnly(s, LinksOf(s, i, parents))
    ensures AddLinks(t, i, parents) == WalkEach(t, LinksOf(s, i, parents))
    ensures SameShape(s, AddLinks(t, i, parents))
    ensures forall j :: 0 <= j < |s| && !s[j].isDir && t[j] == s[j] ==> AddLinks(t, i, parents)[j] == s[j]
  {
    hide Chain, Climb;
    WalksAdd(t, LinksOf(s, i, parents));
    if parents != [] {
      var n := |parents| - 1;
      var p := parents[n];
      var front := LinksOf(s, i, parents[..n]);
      assert forall l :: l in front ==> l in LinksOf(s, i, parents);
      ReplayOne(s, t, i, parents[..n]);
      var r := AddLinks(t, i, parents[..n]);
      assert AddLinks(t, i, parents) == AddLink(r, i, p);
      if p != s[i].parent && Valid(s, p) {
        assert LinksOf(s, i, parents) == front + [Link(i, p, s[i].size)];
        assert Link(i, p, s[i].size) in LinksOf(s, i, parents);
        assert LinksOf(s, i, parents)[..|front|] == front;
        ShapeKeepsChain(s, r, p);
        assert DirsAbove(s, p);
      }
    }
  }

  lemma {:induction false} ShapeItself(s: Arena)
    ensures SameShape(s, s) && WalkEach(s, []) == s
  {
  }

  lemma {:induction false} ReplayAll(s: Arena, extra: map<nat, seq<nat>>, n: nat)
    requires n <= |s| && DirsOnly(s, Replayed(s, extra, n))
    ensures AddAllLinks(s, extra, n) == WalkEach(s, Replayed(s, extra, n))
    ensures SameShape(s, AddAllLinks(s, extra, n))
    ensures forall j :: 0 <= j < |s| && !s[j].isDir ==> AddAllLinks(s, extra, n)[j] == s[j]
  {
    hide AddLinks, LinksOf, Chain, DirsAbove, WalkEach, Climb, SameShape;
    if n == 0 { ShapeItself(s); }
    if n > 0 {
      var front := Replayed(s, extra, n - 1);
      assert forall l :: l in front ==> l in Replayed(s, extra, n);
      ReplayAll(s, extra, n - 1);
      ShapeFile(s, AddAllLinks(s, extra, n - 1), n - 1);
      if IsFile(s, n - 1) {
        var own := LinksOf(s, n - 1, ExtrasOf(extra, n - 1));
        assert forall l :: l in own ==> l in Replayed(s, extra, n);
        ReplayOne(s, AddAllLinks(s, extra, n - 1), n - 1, ExtrasOf(extra, n - 1));
        WalkEachAppend(s, front, own);
      }
    }
  }

  // -- Links whose parent is not there ------------------------------------------------------------

  /** The links whose parent is a live node. */
  function LiveLinks(s: Arena, links: seq<Link>): (r: seq<Link>)
    ensures forall l :: l in r <==> l in links && Valid(s, l.parent)
  {
    if links == [] then [] else
      var r, l := LiveLinks(s, links[..|links| - 1]), links[|links| - 1];
      assert links == links[..|links| - 1] + [l];
      if Valid(s, l.parent) then r + [l] else r
  }

  /** Walking from a dead or missing node does nothing. */
  lemma {:induction false} OnlyLiveLinksCount(s: Arena, links: seq<Link>)
    ensures WalkEach(s, links) == WalkEach(s, LiveLinks(s, links))
  {
    if links != [] {
      var front, l := links[..|links| - 1], links[|links| - 1];
      OnlyLiveLinksCount(s, front);
      var r := WalkEach(s, front);
      if Valid(s, l.parent) {
        assert (LiveLinks(s, front) + [l])[..|LiveLinks(s, front)|] == LiveLinks(s, front);
      } else {
        WalksAdd(s, front);
        ShapeKeepsChain(s, r, l.parent);
        assert Chain(r, l.parent) == [];
        assert WalkFrom(r, l.parent, l.size) == r;
      }
    }
  }

  lemma NothingAboveDead(s: Arena, p: nat)
    requires !Valid(s, p)
    ensures Chain(s, p) == []
  {
  }

  // -- Recomputing -----------------------------------------------------------------------------------

  /** Rolling up starts from the files: directory totals do not matter. */
  lemma RollUpForgetsTotals(s: Arena, t: Arena)
    requires SameButTotals(s, t)
    ensures RollUp(t) == RollUp(s)
  {
    hide Received;
    SameGraph(s, t);
    assert OffCycle(t) == OffCycle(s);
    forall i: nat | i < |s| ensures RollUp(t)[i] == RollUp(s)[i] {
      if s[i].isDir {
        ReceivedAlike(Edges(s), SizeWeight(s), SizeWeight(t), i, OffCycle(s));
        ReceivedAlike(Edges(s), CountWeight(s), CountWeight(t), i, OffCycle(s));
      }
    }
  }

  lemma ReceivedAlike(e: Graph, w: nat -> nat, w': nat -> nat, d: nat, done: set<nat>)
    requires forall i: nat :: i < |e| ==> w(i) == w'(i)
    ensures Received(e, w, d, done) == Received(e, w', d, done)
  {
    hide Reaches;
    forall c: nat | c < |e| ensures ChildBranch(e, w, d, done)(c) == ChildBranch(e, w', d, done)(c) {
      SumEqual(|e|, BelowWeight(e, w, c), BelowWeight(e, w', c));
    }
    SumEqual(|e|, ChildBranch(e, w, d, done), ChildBranch(e, w', d, done));
  }

  /** Files keep their sizes, so the same links are replayed. */
  lemma {:induction false} ReplayedAlike(s: Arena, t: Arena, extra: map<nat, seq<nat>>, n: nat)
    requires SameButTotals(s, t) && n <= |s|
    ensures Replayed(t, extra, n) == Replayed(s, extra, n)
  {
    if n > 0 {
      ReplayedAlike(s, t, extra, n - 1);
      if IsFile(s, n - 1) { LinksAlike(s, t, n - 1, ExtrasOf(extra, n - 1)); }
    }
  }

  lemma {:induction false} LinksAlike(s: Arena, t: Arena, i: nat, parents: seq<nat>)
    requires SameButTotals(s, t) && i < |s| && !s[i].isDir
    ensures LinksOf(t, i, parents) == LinksOf(s, i, parents)
  {
    if parents != [] { LinksAlike(s, t, i, parents[..|parents| - 1]); }
  }

  lemma DirsOnlyAlike(s: Arena, t: Arena, links: seq<Link>)
    requires SameShape(s, t)
    ensures DirsOnly(s, links) <==> DirsOnly(t, links)
  {
    hide Chain;
    forall l | l in links ensures DirsAbove(s, l.parent) <==> DirsAbove(t, l.parent) {
      ShapeKeepsChain(s, t, l.parent);
      ChainLive(s, l.parent);
    }
  }

  lemma ButTotalsIsShape(s: Arena, t: Arena)
    requires SameButTotals(s, t)
    ensures SameShape(s, t)
  {
  }

  /** The tree of a scan: files rolled up, then every extra link walked. */
  ghost function Linked(s: Arena, links: seq<Link>): (t: Arena)
    ensures |t| == |s|
  {
    WalkEach(RollUp(s), links)
  }

  /** The recorded parents are the live links, each once. */
  ghost predicate Recorded(s: Arena, links: seq<Link>, extra: map<nat, seq<nat>>)
  {
    multiset(Replayed(s, extra, |s|)) == multiset(LiveLinks(s, links))
  }

  lemma {:induction false} LinksOfNext(s: Arena, i: nat, parents: seq<nat>, p: nat)
    requires i < |s| && p != s[i].parent && Valid(s, p)
    ensures LinksOf(s, i, parents + [p]) == LinksOf(s, i, parents) + [Link(i, p, s[i].size)]
  {
    assert (parents + [p])[..|parents|] == parents;
  }

  lemma {:induction false} ReplayedStep(s: Arena, extra: map<nat, seq<nat>>, n: nat)
    requires n < |s|
    ensures Replayed(s, extra, n + 1) == if IsFile(s, n) then Replayed(s, extra, n) + LinksOf(s, n, ExtrasOf(extra, n)) else Replayed(s, extra, n)
  {
  }

  /** Recording one more live link replays exactly that link more. */
  lemma {:induction false} ReplayedNext(s: Arena, extra: map<nat, seq<nat>>, extra': map<nat, seq<nat>>, n: nat, f: nat, p: nat)
    requires n <= |s| && IsFile(s, f) && p != s[f].parent && Valid(s, p)
    requires extra' == extra[f := ExtrasOf(extra, f) + [p]]
    ensures multiset(Replayed(s, extra', n)) == multiset(Replayed(s, extra, n)) + (if f < n then multiset{Link(f, p, s[f].size)} else multiset{})
  {
    hide LinksOf, Replayed, ExtrasOf, IsFile, Valid;
    if n == 0 {
      ReplayedNothing(s, extra);
      ReplayedNothing(s, extra');
    } else {
      ReplayedNext(s, extra, extra', n - 1, f, p);
      ReplayedStep(s, extra, n - 1);
      ReplayedStep(s, extra', n - 1);
      ExtrasUpdate(extra, extra', f, p, n - 1);
      if n - 1 == f { LinksOfNext(s, f, ExtrasOf(extra, f), p); }
    }
  }

  lemma ExtrasUpdate(extra: map<nat, seq<nat>>, extra': map<nat, seq<nat>>, f: nat, p: nat, i: nat)
    requires extra' == extra[f := ExtrasOf(extra, f) + [p]]
    ensures ExtrasOf(extra', i) == if i == f then ExtrasOf(extra, f) + [p] else ExtrasOf(extra, i)
  {
  }

  lemma {:induction false} ReplayedNothing(s: Arena, extra: map<nat, seq<nat>>)
    ensures Replayed(s, extra, 0) == []
  {
  }

  lemma RecordedNext(s: Arena, links: seq<Link>, extra: map<nat, seq<nat>>, l: Link)
    requires Recorded(s, links, extra) && IsFile(s, l.file) && l.size == s[l.file].size && (Valid(s, l.parent) ==> l.parent != s[l.file].parent)
    ensures Recorded(s, links + [l], if Valid(s, l.parent) then extra[l.file := ExtrasOf(extra, l.file) + [l.parent]] else extra)
  {
    hide Replayed;
    assert (links + [l])[..|links|] == links;
    if Valid(s, l.parent) { ReplayedNext(s, extra, extra[l.file := ExtrasOf(extra, l.file) + [l.parent]], |s|, l.file, l.parent); }
  }

  lemma {:induction false} NothingReplayed(s: Arena, n: nat)
    requires n <= |s|
    ensures Replayed(s, map[], n) == []
  {
    if n > 0 { NothingReplayed(s, n - 1); }
  }

  lemma {:induction false} DirsOnlyIsFixed(s: Arena, links: seq<Link>, extra: map<nat, seq<nat>>)
    requires Recorded(s, links, extra) && DirsOnly(s, links)
    ensures AddAllLinks(RollUp(Linked(s, links)), extra, |s|) == Linked(s, links)
  {
    hide WalkEach, RollUp, Replayed, LiveLinks, DirsAbove, Gain, Visits;
    var r, t := RollUp(s), Linked(s, links);
    RollUpIsButTotals(s);
    ButTotalsIsShape(s, r);
    DirsOnlyAlike(s, r, links);
    WalksKeepFiles(r, links);
    WalksAdd(r, links);
    StillButTotals(s, r, t);
    RollUpForgetsTotals(s, t);
    ReplayedAlike(s, r, extra, |s|);
    var again := Replayed(s, extra, |s|);
    forall l | l in again ensures l in links { assert l in multiset(again); assert l in multiset(LiveLinks(s, links)); }
    assert DirsOnly(r, again);
    ReplayAll(r, extra, |s|);
    OnlyLiveLinksCount(r, links);
    LiveAlike(s, r, links);
    WalksAnyOrder(r, again, LiveLinks(r, links));
  }

  lemma RollUpIsButTotals(s: Arena)
    ensures SameButTotals(s, RollUp(s))
  {
    hide Received;
  }

  lemma StillButTotals(s: Arena, r: Arena, t: Arena)
    requires SameButTotals(s, r) && SameShape(r, t) && forall i :: 0 <= i < |r| && !r[i].isDir ==> t[i] == r[i]
    ensures SameButTotals(s, t)
  {
  }

  lemma {:induction false} LiveAlike(s: Arena, t: Arena, links: seq<Link>)
    requires SameShape(s, t)
    ensures LiveLinks(s, links) == LiveLinks(t, links)
  {
    if links != [] { LiveAlike(s, t, links[..|links| - 1]); }
  }

  // -- The other direction -----------------------------------------------------------------------------

  /** Replaying never lowers a count, and raises that of every node a replayed walk visits. */
  lemma {:induction false} ReplayRaisesOne(t: Arena, i: nat, parents: seq<nat>, d: nat)
    requires i < |t| && d < |t|
    ensures SameShape(t, AddLinks(t, i, parents)) && AddLinks(t, i, parents)[d].files >= t[d].files
    ensures (exists p :: p in parents && p != t[i].parent && Valid(t, p) && d in Chain(t, p)) && t[d].files < MAX_U64 ==> AddLinks(t, i, parents)[d].files > t[d].files
  {
    hide Chain;
    if parents != [] {
      var front, p := parents[..|parents| - 1], parents[|parents| - 1];
      assert parents == front + [p];
      ReplayRaisesOne(t, i, front, d);
      var r := AddLinks(t, i, front);
      ShapeKeepsChain(t, r, p);
      assert AddLinks(t, i, parents) == AddLink(r, i, p);
    }
  }

  ghost predicate Replays(t: Arena, extra: map<nat, seq<nat>>, i: nat, d: nat)
  {
    IsFile(t, i) && exists p :: p in ExtrasOf(extra, i) && p != t[i].parent && Valid(t, p) && d in Chain(t, p)
  }

  lemma ReplaysAlike(t: Arena, r: Arena, extra: map<nat, seq<nat>>, i: nat, d: nat)
    requires SameShape(t, r)
    ensures Replays(t, extra, i, d) ==> Replays(r, extra, i, d)
  {
    hide Chain;
    if Replays(t, extra, i, d) {
      var p :| p in ExtrasOf(extra, i) && p != t[i].parent && Valid(t, p) && d in Chain(t, p);
      ShapeKeepsChain(t, r, p);
      assert p in ExtrasOf(extra, i) && p != r[i].parent && Valid(r, p) && d in Chain(r, p);
    }
  }

  lemma {:induction false} ReplayRaises(t: Arena, extra: map<nat, seq<nat>>, n: nat, d: nat)
    requires n <= |t| && d < |t|
    ensures SameShape(t, AddAllLinks(t, extra, n)) && AddAllLinks(t, extra, n)[d].files >= t[d].files
    ensures (exists i: nat :: i < n && Replays(t, extra, i, d)) && t[d].files < MAX_U64 ==> AddAllLinks(t, extra, n)[d].files > t[d].files
  {
    hide AddLinks, Replays, Chain;
    if n > 0 {
      ReplayRaises(t, extra, n - 1, d);
      var r := AddAllLinks(t, extra, n - 1);
      ReplaysAlike(t, r, extra, n - 1, d);
      ReplayRaisesHere(r, extra, n - 1, d);
      ShapeFile(t, r, n - 1);
      if i: nat :| i < n && Replays(t, extra, i, d) {
        ReplayNeedsFile(t, extra, i, d);
        assert i < n - 1 ==> exists k: nat :: k < n - 1 && Replays(t, extra, k, d);
      }
    }
  }

  lemma ReplayNeedsFile(t: Arena, extra: map<nat, seq<nat>>, i: nat, d: nat)
    requires Replays(t, extra, i, d)
    ensures IsFile(t, i)
  {
  }

  lemma {:induction false} ReplayRaisesHere(r: Arena, extra: map<nat, seq<nat>>, i: nat, d: nat)
    requires i < |r| && d < |r|
    ensures IsFile(r, i) ==> SameShape(r, AddLinks(r, i, ExtrasOf(extra, i))) && AddLinks(r, i, ExtrasOf(extra, i))[d].files >= r[d].files
    ensures Replays(r, extra, i, d) && r[d].files < MAX_U64 ==> AddLinks(r, i, ExtrasOf(extra, i))[d].files > r[d].files
  {
    hide Chain, AddLinks;
    ReplayRaisesOne(r, i, ExtrasOf(extra, i), d);
  }

  lemma {:induction false} VisitsBounded(s: Arena, links: seq<Link>, d: nat)
    ensures Visits(s, links, d) <= |links|
  {
    if links != [] { VisitsBounded(s, links[..|links| - 1], d); }
  }

  /** No file's own count is near the top of the range. */
  predicate CountsSmall(s: Arena, links: seq<Link>)
  {
    forall i :: 0 <= i < |s| && !s[i].isDir ==> s[i].files + |links| < MAX_U64
  }

  /** A link whose walk meets a file is counted again by every recomputation. */
  lemma {:induction false} FileAboveIsNotFixed(s: Arena, links: seq<Link>, extra: map<nat, seq<nat>>, l: Link, d: nat)
    requires Recorded(s, links, extra) && CountsSmall(s, links) && l in links && d in Chain(s, l.parent) && !s[d].isDir
    ensures AddAllLinks(RollUp(Linked(s, links)), extra, |s|) != Linked(s, links)
  {
    hide WalkEach, RollUp, Replayed, LiveLinks, Gain, Visits, Chain, Replays;
    var r, t := RollUp(s), Linked(s, links);
    RollUpIsButTotals(s);
    ButTotalsIsShape(s, r);
    WalksAdd(r, links);
    VisitsBounded(r, links, d);
    var again := RollUp(t);
    RollUpIsButTotals(t);
    ButTotalsIsShape(t, again);
    ShapesCompose(s, r, t, again);
    LinkIsReplayed(s, links, extra, l, d);
    ReplaysAlike(s, again, extra, l.file, d);
    ReplayRaises(again, extra, |s|, d);
    assert s[d].files == r[d].files;
  }

  lemma ShapesCompose(s: Arena, r: Arena, t: Arena, u: Arena)
    requires SameShape(s, r) && SameShape(r, t) && SameShape(t, u)
    ensures SameShape(s, u)
  {
  }

  lemma LinkIsReplayed(s: Arena, links: seq<Link>, extra: map<nat, seq<nat>>, l: Link, d: nat)
    requires Recorded(s, links, extra) && l in links && d in Chain(s, l.parent)
    ensures d < |s| && l.file < |s| && Replays(s, extra, l.file, d)
  {
    hide Chain, Replayed;
    if !Valid(s, l.parent) { NothingAboveDead(s, l.parent); }
    ChainLive(s, l.parent);
    assert l in multiset(LiveLinks(s, links));
    assert l in multiset(Replayed(s, extra, |s|));
    ReplayedAre(s, extra, |s|, l);
    assert l.parent in ExtrasOf(extra, l.file) && l.parent != s[l.file].parent && Valid(s, l.parent) && d in Chain(s, l.parent);
  }

  /** Totals that include hard links are left alone by a recomputation exactly when every walk from an extra parent meets directories only. */
  lemma {:induction false} HardLinksAreFixed(s: Arena, links: seq<Link>, extra: map<nat, seq<nat>>)
    requires Recorded(s, links, extra) && CountsSmall(s, links)
    ensures AddAllLinks(RollUp(Linked(s, links)), extra, |s|) == Linked(s, links) <==> DirsOnly(s, links)
  {
    hide RollUp, Recorded, Chain, WalkEach;
    if DirsOnly(s, links) {
      DirsOnlyIsFixed(s, links, extra);
    } else {
      var l :| l in links && !DirsAbove(s, l.parent);
      ChainLive(s, l.parent);
      var d :| d in Chain(s, l.parent) && !s[d].isDir;
      FileAboveIsNotFixed(s, links, extra, l, d);
    }
  }

  // -- Walking file by file ----------------------------------------------------------------------------

  /** Every walk a recomputation file by file makes: each file's own parent, then its recorded ones. */
  function FileLinks(s: Arena, extra: map<nat, seq<nat>>, n: nat): (r: seq<Link>)
    requires n <= |s|
  {
    if n == 0 then [] else FileLinks(s, extra, n - 1) + OneFile(s, extra, n - 1)
  }

  function OneFile(s: Arena, extra: map<nat, seq<nat>>, i: nat): (r: seq<Link>)
    requires i < |s|
  {
    if IsFile(s, i) then [Link(i, s[i].parent, s[i].size)] + LinksOf(s, i, ExtrasOf(extra, i)) else []
  }

  lemma {:induction false} LinksWalked(s: Arena, t: Arena, i: nat, parents: seq<nat>)
    requires SameShape(s, t) && i < |s|
    ensures WalkLinks(t, s[i].parent, s[i].size, parents) == WalkEach(t, LinksOf(s, i, parents))
  {
    hide WalkFrom;
    if parents != [] {
      var n := |parents| - 1;
      LinksWalked(s, t, i, parents[..n]);
      WalksAdd(t, LinksOf(s, i, parents[..n]));
      var front, p := LinksOf(s, i, parents[..n]), parents[n];
      assert (front + [Link(i, p, s[i].size)])[..|front|] == front;
    }
  }

  lemma {:induction false} FileWalked(s: Arena, t: Arena, extra: map<nat, seq<nat>>, i: nat)
    requires SameShape(s, t) && i < |s| && (IsFile(s, i) ==> t[i] == s[i])
    ensures WalkFile(t, i, ExtrasOf(extra, i)) == WalkEach(t, OneFile(s, extra, i))
  {
    hide WalkFrom, WalkLinks, LinksOf;
    ShapeFile(s, t, i);
    if IsFile(s, i) {
      var first := [Link(i, s[i].parent, s[i].size)];
      assert first[..0] == [] && WalkEach(t, []) == t;
      assert WalkEach(t, first) == WalkFrom(t, s[i].parent, s[i].size);
      WalksAdd(t, first);
      ShapeChains(s, t, WalkEach(t, first));
      LinksWalked(s, WalkEach(t, first), i, ExtrasOf(extra, i));
      WalkEachAppend(t, first, LinksOf(s, i, ExtrasOf(extra, i)));
    }
  }

  lemma ShapeChains(s: Arena, r: Arena, t: Arena)
    requires SameShape(s, r) && SameShape(r, t)
    ensures SameShape(s, t)
  {
  }

  lemma {:induction false} AllWalked(s: Arena, extra: map<nat, seq<nat>>, n: nat)
    requires n <= |s| && DirsOnly(s, FileLinks(s, extra, n))
    ensures WalkAll(s, extra, n) == WalkEach(s, FileLinks(s, extra, n))
  {
    hide WalkEach, WalkFile, OneFile, DirsAbove;
    if n == 0 {
      ShapeItself(s);
    } else {
      var front := FileLinks(s, extra, n - 1);
      assert forall l :: l in front ==> l in FileLinks(s, extra, n);
      AllWalked(s, extra, n - 1);
      WalksAdd(s, front);
      WalksKeepFiles(s, front);
      FileWalked(s, WalkEach(s, front), extra, n - 1);
      WalkEachAppend(s, front, OneFile(s, extra, n - 1));
    }
  }

  lemma {:induction false} FileLinksSplit(s: Arena, extra: map<nat, seq<nat>>, n: nat)
    requires n <= |s|
    ensures multiset(FileLinks(s, extra, n)) == multiset(FileLinks(s, map[], n) + Replayed(s, extra, n))
  {
    hide FileLinks, Replayed, OneFile, LinksOf;
    if n == 0 {
      NoFileLinks(s, extra);
    } else {
      FileLinksSplit(s, extra, n - 1);
      FileLinksNext(s, extra, n - 1);
      if IsFile(s, n - 1) {
        Shuffled(FileLinks(s, extra, n - 1), FileLinks(s, map[], n - 1), Replayed(s, extra, n - 1), Link(n - 1, s[n - 1].parent, s[n - 1].size), LinksOf(s, n - 1, ExtrasOf(extra, n - 1)));
      }
    }
  }

  lemma {:induction false} NoFileLinks(s: Arena, extra: map<nat, seq<nat>>)
    ensures FileLinks(s, extra, 0) == [] && FileLinks(s, map[], 0) == [] && Replayed(s, extra, 0) == []
  {
  }

  lemma {:induction false} FileLinksNext(s: Arena, extra: map<nat, seq<nat>>, i: nat)
    requires i < |s|
    ensures if IsFile(s, i) then
              var first, more := [Link(i, s[i].parent, s[i].size)], LinksOf(s, i, ExtrasOf(extra, i));
              && FileLinks(s, extra, i + 1) == FileLinks(s, extra, i) + (first + more) && FileLinks(s, map[], i + 1) == FileLinks(s, map[], i) + first
              && Replayed(s, extra, i + 1) == Replayed(s, extra, i) + more
            else FileLinks(s, extra, i + 1) == FileLinks(s, extra, i) && FileLinks(s, map[], i + 1) == FileLinks(s, map[], i) && Replayed(s, extra, i + 1) == Replayed(s, extra, i)
  {
    hide LinksOf;
    NothingExtra(s, i);
  }

  lemma NothingExtra(s: Arena, i: nat)
    requires i < |s|
    ensures OneFile(s, map[], i) == if IsFile(s, i) then [Link(i, s[i].parent, s[i].size)] else []
  {
    NoLinksOf(s, i);
    assert ExtrasOf(map[], i) == [];
  }

  lemma Shuffled(all: seq<Link>, own: seq<Link>, links: seq<Link>, first: Link, more: seq<Link>)
    requires multiset(all) == multiset(own + links)
    ensures multiset(all + ([first] + more)) == multiset(own + [first] + (links + more))
  {
    assert multiset(all + ([first] + more)) == multiset(all) + multiset([first]) + multiset(more);
    assert multiset(own + [first] + (links + more)) == multiset(own) + multiset([first]) + multiset(links) + multiset(more);
  }

  lemma {:induction false} NoLinksOf(s: Arena, i: nat)
    requires i < |s|
    ensures LinksOf(s, i, []) == []
  {
  }

  lemma {:induction false} OwnWalksMeetDirs(s: Arena, t: Arena, n: nat)
    requires WellFormed(s) && Shallow(s) && SameShape(s, t) && n <= |s|
    ensures DirsOnly(t, FileLinks(t, map[], n))
  {
    hide WellFormed, Shallow, Chain, LinksOf;
    if n > 0 {
      OwnWalksMeetDirs(s, t, n - 1);
      NoLinksOf(t, n - 1);
      assert ExtrasOf(map[], n - 1) == [];
      if IsFile(t, n - 1) { OwnWalk(s, t, n - 1); }
    }
  }

  lemma OwnWalk(s: Arena, t: Arena, i: nat)
    requires WellFormed(s) && Shallow(s) && SameShape(s, t) && i < |s| && IsFile(s, i)
    ensures DirsAbove(t, t[i].parent)
  {
    hide Climb;
    var p := s[i].parent;
    ShapeKeepsChain(s, t, p);
    ChainIsAncestors(s, p);
    forall d: nat | d in Chain(s, p) ensures IsDir(s, d) { AboveDirIsDir(s, p, d); }
  }

  /** Where the walks from recorded parents meet directories only, recomputing file by file and rolling up before replaying the links agree. */
  lemma {:induction false} WalksMatchWithLinks(s: Arena, extra: map<nat, seq<nat>>)
    requires WellFormed(s) && Shallow(s) && DirsOnly(s, Replayed(s, extra, |s|))
    ensures WalkAll(Zeroed(s, |s|), extra, |s|) == AddAllLinks(RollUp(s), extra, |s|)
  {
    hide WellFormed, Shallow, RollUp, WalkAll, WalkEach, FileLinks, Replayed, DirsOnly, AddAllLinks, Zeroed;
    var z, r, n := Zeroed(s, |s|), RollUp(s), |s|;
    ZeroedIsButTotals(s);
    RollUpIsButTotals(s);
    ButTotalsIsShape(s, z);
    ButTotalsIsShape(s, r);
    ReplayedAlike(s, z, extra, n);
    ReplayedAlike(s, r, extra, n);
    var own, links := FileLinks(z, map[], n), Replayed(s, extra, n);
    DirsOnlyAlike(s, z, links);
    DirsOnlyAlike(s, r, links);
    OwnWalksMeetDirs(s, z, n);
    FileLinksSplit(z, extra, n);
    AllDirs(z, own, links, FileLinks(z, extra, n));
    AllWalked(z, extra, n);
    AllWalked(z, map[], n);
    WalksAnyOrder(z, FileLinks(z, extra, n), own + links);
    WalkEachAppend(z, own, links);
    WalksMatchRollUp(s);
    ReplayAll(r, extra, n);
  }

  lemma ZeroedIsButTotals(s: Arena)
    ensures |Zeroed(s, |s|)| == |s| && SameButTotals(s, Zeroed(s, |s|))
  {
  }

  lemma AllDirs(s: Arena, a: seq<Link>, b: seq<Link>, c: seq<Link>)
    requires DirsOnly(s, a) && DirsOnly(s, b) && multiset(c) == multiset(a + b)
    ensures DirsOnly(s, c)
  {
    hide DirsAbove;
    forall l | l in c ensures DirsAbove(s, l.parent) {
      assert l in multiset(c);
      assert l in a + b;
    }
  }

  // -- Directories as parents are not enough --------------------------------------------------------------

  const SPUR: Arena := [
    Slot(0, [], true, 0, true, 0, 0), Slot(0, [102], false, 5, true, 0, 0),
    Slot(1, [100], true, 0, true, 0, 0), Slot(0, [103], false, 7, true, 0, 0)]

  const SPUR_LINKS: seq<Link> := [Link(3, 2, 7)]
  const SPUR_EXTRA: map<nat, seq<nat>> := map[3 := [2]]

  /** A live directory below a live file is a directory, but its chain is not: link parents being directories does not make the totals a fixed point. */
  lemma DirectoryParentsAreNotEnough()
    ensures IsDir(SPUR, 2) && Recorded(SPUR, SPUR_LINKS, SPUR_EXTRA)
    ensures AddAllLinks(RollUp(Linked(SPUR, SPUR_LINKS)), SPUR_EXTRA, 4) != Linked(SPUR, SPUR_LINKS)
  {
    hide RollUp, Replayed, LiveLinks, WalkEach, AddAllLinks, Chain, Linked;
    SpurReplays();
    SpurLives();
    SpurChain();
    FileAboveIsNotFixed(SPUR, SPUR_LINKS, SPUR_EXTRA, SPUR_LINKS[0], 1);
  }

  lemma SpurReplays()
    ensures Replayed(SPUR, SPUR_EXTRA, 4) == SPUR_LINKS
  {
    hide LinksOf;
    assert Replayed(SPUR, SPUR_EXTRA, 0) == [] && Replayed(SPUR, SPUR_EXTRA, 1) == [] && Replayed(SPUR, SPUR_EXTRA, 2) == [] && Replayed(SPUR, SPUR_EXTRA, 3) == []
    by { SpurHasOneFile(); }
    SpurLinks();
  }

  lemma SpurHasOneFile()
    ensures LinksOf(SPUR, 1, []) == []
  {
  }

  lemma SpurLinks()
    ensures LinksOf(SPUR, 3, [2]) == SPUR_LINKS
  {
    assert LinksOf(SPUR, 3, [2][..0]) == [];
  }

  lemma SpurLives()
    ensures LiveLinks(SPUR, SPUR_LINKS) == SPUR_LINKS
  {
    assert LiveLinks(SPUR, SPUR_LINKS[..0]) == [];
  }

  lemma SpurChain()
    ensures 1 in Chain(SPUR, 2)
  {
    assert Climb(SPUR, 2, WALK_LIMIT, {}) == [2] + Climb(SPUR, 1, WALK_LIMIT - 1, {2});
  }

  // -- Counts stay small ---------------------------------------------------------------------------------

  lemma {:induction false} SumOfWords(n: nat, f: nat -> nat)
    requires forall i :: 0 <= i < n ==> f(i) <= TWO_TO_THE_32
    ensures Sum(n, f) <= n * TWO_TO_THE_32
  {
    if n > 0 { SumOfWords(n - 1, f); }
  }

  lemma ReceivedBounded(e: Graph, w: nat -> nat, d: nat, done: set<nat>)
    requires |e| <= MAX_U32 && forall i: nat :: w(i) <= 1
    ensures Received(e, w, d, done) <= |e| * TWO_TO_THE_32
  {
    hide Reaches;
    forall c: nat | c < |e| ensures ChildBranch(e, w, d, done)(c) <= TWO_TO_THE_32 {
      SumAtMost(|e|, BelowWeight(e, w, c));
    }
    SumOfWords(|e|, ChildBranch(e, w, d, done));
  }

  /** A directory rolls up at most as many files as its children can hold. */
  lemma RolledCountBounded(s: Arena, d: nat)
    requires d < |s| <= MAX_U32 && (s[d].isDir || s[d].files == 0)
    ensures RollUp(s)[d].files <= |s| * TWO_TO_THE_32
  {
    hide Received, Edges;
    ReceivedBounded(Edges(s), CountWeight(s), d, OffCycle(s));
  }
}
