/** What a tree must satisfy to be written to, or accepted from, a v7 file. */
module Validation {
  import opened Words
  import opened Forest
  import opened Slots
  import opened Ancestors

  const PARENT_LIMIT: int := 0x4000_0000

  /** Library and platform behaviour the format depends on but does not define. */
  datatype Host = Host(hash: Name -> U64, utf8: Name -> bool, backslash: bool)

  /** One path component: not empty, not a dot name, free of separators and NUL. */
  predicate SafeName(host: Host, name: Name)
  {
    && name != [] && name != [46] && name != [46, 46]
    && 47 !in name && 0 !in name && !(host.backslash && 92 in name)
  }

  predicate Representable(host: Host, e: Slot)
  {
    e.parent < PARENT_LIMIT && e.mtime <= MAX_U32 && e.files <= MAX_U32 && |e.name| <= MAX_U16 && host.utf8(e.name)
  }

  predicate RootOk(s: Arena)
  {
    0 < |s| <= PARENT_LIMIT && IsDir(s, 0) && s[0].parent == 0
  }

  /** A live node hangs off another live directory, an earlier one if order is asked for. */
  predicate LinkOk(host: Host, s: Arena, i: nat, ordered: bool)
    requires i < |s|
  {
    s[i].used && i > 0 ==>
      SafeName(host, s[i].name) && IsDir(s, s[i].parent) && s[i].parent != i && (ordered ==> s[i].parent < i)
  }

  /** A tree the v7 format can hold. */
  ghost predicate ValidTree(host: Host, s: Arena, ordered: bool)
  {
    && RootOk(s)
    && (forall i :: 0 <= i < |s| ==> Representable(host, s[i]) && LinkOk(host, s, i, ordered))
    && Acyclic(Edges(s))
  }

  lemma ValidIsWellFormed(host: Host, s: Arena, ordered: bool)
    requires ValidTree(host, s, ordered)
    ensures WellFormed(s)
  {
    forall i | 0 < i < |s| && s[i].used ensures IsDir(s, s[i].parent) && s[i].parent != i {
      assert LinkOk(host, s, i, ordered);
    }
  }

  /** Links that point strictly backwards cannot close a cycle. */
  lemma {:induction false} BackwardUp(s: Arena, i: nat, k: nat)
    requires i < |s| && forall j :: 0 < j < |s| && s[j].used ==> s[j].parent < j
    ensures k > 0 && Up(Edges(s), i, k).Some? ==> Up(Edges(s), i, k).value < i
    decreases k
  {
    if k > 1 { BackwardUp(s, i, k - 1); }
    if k == 1 { assert Up(Edges(s), i, 0) == Some(i); }
  }

  lemma BackwardIsAcyclic(s: Arena)
    requires forall j :: 0 < j < |s| && s[j].used ==> s[j].parent < j
    ensures Acyclic(Edges(s))
  {
    forall i | 0 <= i < |s| ensures !OnCycle(Edges(s), i) {
      if OnCycle(Edges(s), i) {
        var k: nat :| k >= 1 && Up(Edges(s), i, k) == Some(i);
        BackwardUp(s, i, k);
      }
    }
  }

  // -- The colouring walk -----------------------------------------------------------------

  datatype Colour = White | Grey | Black

  /** Black nodes reach the root; grey ones are the chain being walked. */
  ghost predicate Coloured(s: Arena, state: seq<Colour>, chain: seq<nat>)
  {
    && |state| == |s| && |s| > 0 && state[0] == Black
    && (forall x :: 0 <= x < |s| && state[x] == Black ==> AtOrBelow(Edges(s), x, 0))
    && (forall x :: 0 <= x < |s| ==> (state[x] == Grey <==> x in chain))
    && (forall x :: x in chain ==> x < |s|)
  }

  /** What follows chain[k]: the next chain node, or cur. */
  function Next(chain: seq<nat>, cur: nat, k: nat): nat
    requires k < |chain|
  {
    if k == |chain| - 1 then cur else chain[k + 1]
  }

  /** Each chain node's parent is the next one, and cur follows the last; only the last may be its own parent. */
  ghost predicate Linked(s: Arena, chain: seq<nat>, cur: nat)
  {
    forall k: nat :: k < |chain| ==> LinkAt(s, chain, cur, k)
  }

  ghost predicate LinkAt(s: Arena, chain: seq<nat>, cur: nat, k: nat)
    requires k < |chain|
  {
    && 0 < chain[k] < |s| && s[chain[k]].used && s[chain[k]].parent == Next(chain, cur, k) && IsDir(s, Next(chain, cur, k))
    && (k < |chain| - 1 ==> Next(chain, cur, k) != chain[k])
  }

  lemma {:induction false} ChainReaches(s: Arena, chain: seq<nat>, cur: nat, k: nat)
    requires Linked(s, chain, cur) && k < |chain| && chain[|chain| - 1] != cur
    ensures chain[k] < |s| && Reaches(Edges(s), chain[k], cur)
    decreases |chain| - k
  {
    var next := Next(chain, cur, k);
    assert LinkAt(s, chain, cur, k);
    assert HeapEdge(s, chain[k]) == Some(next);
    EdgeReaches(Edges(s), chain[k], next);
    if k < |chain| - 1 {
      ChainReaches(s, chain, cur, k + 1);
      ReachesTransitive(Edges(s), chain[k], next, cur);
    }
  }

  /** Meeting a grey node means a cycle, if only of length one. */
  lemma GreyIsInvalid(host: Host, s: Arena, chain: seq<nat>, cur: nat, ordered: bool)
    requires Linked(s, chain, cur) && cur in chain
    ensures !ValidTree(host, s, ordered)
  {
    var last := |chain| - 1;
    assert LinkAt(s, chain, cur, last);
    if chain[last] == cur {
      assert !LinkOk(host, s, cur, ordered);
    } else {
      var k :| 0 <= k < |chain| && chain[k] == cur;
      ChainReaches(s, chain, cur, k);
      assert OnCycle(Edges(s), cur);
    }
  }

  /** A chain that met a black node reaches the root too. */
  lemma ChainSettles(s: Arena, chain: seq<nat>, cur: nat)
    requires Linked(s, chain, cur) && AtOrBelow(Edges(s), cur, 0) && cur !in chain
    ensures forall x :: x in chain ==> AtOrBelow(Edges(s), x, 0)
  {
    forall x | x in chain ensures AtOrBelow(Edges(s), x, 0) {
      var k :| 0 <= k < |chain| && chain[k] == x;
      ChainReaches(s, chain, cur, k);
      if cur != 0 { ReachesTransitive(Edges(s), x, cur, 0); }
    }
  }

  /** A node that reaches the root is on no cycle: the root has no parent edge. */
  lemma RootedOffCycle(s: Arena, x: nat)
    requires AtOrBelow(Edges(s), x, 0)
    ensures !OnCycle(Edges(s), x)
  {
    if OnCycle(Edges(s), x) {
      if x != 0 { AboveCycle(Edges(s), x, 0); }
      ReachesFirstStep(Edges(s), 0, 0);
    }
  }

  lemma RootedIsAcyclic(s: Arena)
    requires forall x :: Valid(s, x) ==> AtOrBelow(Edges(s), x, 0)
    ensures Acyclic(Edges(s))
  {
    forall x | 0 <= x < |s| ensures !OnCycle(Edges(s), x) {
      if s[x].used {
        RootedOffCycle(s, x);
      } else {
        ReachesFirstStep(Edges(s), x, x);
      }
    }
  }

  lemma DeadLinkOk(host: Host, s: Arena, i: nat, ordered: bool)
    requires i < |s|
    ensures !s[i].used ==> LinkOk(host, s, i, ordered)
  {
  }

  /** Whether a tree may be persisted. Forward parents are fine, cycles are not. */
  method ValidateDiskTree(host: Host, s: Arena, ordered: bool) returns (ok: bool)
    ensures ok <==> ValidTree(host, s, ordered)
  {
    hide Representable, LinkOk, OnCycle, Reaches;
    if !RootOk(s) {
      return false;
    }
    var state := seq(|s|, i => if i == 0 then Black else White);
    for i := 0 to |s|
      invariant Coloured(s, state, [])
      invariant forall x :: 0 <= x < i ==> Representable(host, s[x]) && LinkOk(host, s, x, ordered)
      invariant forall x :: 0 <= x < i && s[x].used ==> state[x] == Black
    {
      if !Representable(host, s[i]) {
        return false;
      }
      DeadLinkOk(host, s, i, ordered);
      if s[i].used {
        if !LinkOk(host, s, i, ordered) {
          return false;
        }
        ok, state := Settle(host, s, i, state, ordered);
        if !ok {
          return false;
        }
      }
    }
    RootedIsAcyclic(s);
    return true;
  }

  lemma Extended(s: Arena, chain: seq<nat>, cur: nat)
    requires Linked(s, chain, cur) && 0 < cur < |s| && s[cur].used && IsDir(s, s[cur].parent) && cur !in chain
    ensures Linked(s, chain + [cur], s[cur].parent)
  {
    var chain', p: nat := chain + [cur], s[cur].parent;
    forall k: nat | k < |chain'| ensures LinkAt(s, chain', p, k) {
      if k < |chain| {
        assert LinkAt(s, chain, cur, k);
        assert chain'[k] == chain[k] && chain[k] in chain;
      }
    }
  }

  /** Follows parents from i to settled ground, or finds a stranger or a cycle on the way. */
  method Settle(host: Host, s: Arena, i: nat, state0: seq<Colour>, ghost ordered: bool) returns (ok: bool, state: seq<Colour>)
    requires RootOk(s) && Coloured(s, state0, []) && Valid(s, i)
    ensures !ok ==> !ValidTree(host, s, ordered)
    ensures ok ==> Coloured(s, state, []) && state[i] == Black
    ensures ok ==> forall x :: 0 <= x < |s| && state0[x] == Black ==> state[x] == Black
  {
    hide OnCycle, Reaches;
    var chain: seq<nat>;
    var cur: nat;
    ok, state, chain, cur := FollowParents(host, s, i, state0, ordered);
    if !ok {
      return;
    }
    ChainSettles(s, chain, cur);
    ghost var grey := state;
    for k := 0 to |chain|
      invariant |state| == |s|
      invariant forall x :: 0 <= x < |s| ==> state[x] == if x in chain[..k] then Black else grey[x]
    {
      assert chain[k] in chain;
      state := state[chain[k] := Black];
    }
    assert chain[..|chain|] == chain;
  }

  method FollowParents(host: Host, s: Arena, i: nat, state0: seq<Colour>, ghost ordered: bool)
    returns (ok: bool, state: seq<Colour>, chain: seq<nat>, cur: nat)
    requires RootOk(s) && Coloured(s, state0, []) && Valid(s, i)
    ensures !ok ==> !ValidTree(host, s, ordered)
    ensures ok ==> Coloured(s, state, chain) && Linked(s, chain, cur) && cur < |s| && state[cur] == Black
    ensures ok ==> i in chain || state[i] == Black
    ensures ok ==> forall x :: 0 <= x < |s| && state0[x] == Black ==> state[x] == Black
  {
    hide OnCycle, Reaches, Linked;
    state, chain, cur := state0, [], i;
    NothingLinked(s, i);
    while state[cur] == White
      invariant cur < |s| && Valid(s, cur) && Coloured(s, state, chain) && Linked(s, chain, cur)
      invariant cur == i || i in chain
      invariant forall x :: 0 <= x < |s| && state0[x] == Black ==> state[x] == Black
      decreases WhiteCount(state)
    {
      WhiteShrinks(state, cur, Grey);
      var p := s[cur].parent;
      if !IsDir(s, p) {
        assert !LinkOk(host, s, cur, ordered);
        return false, state, chain, cur;
      }
      Extended(s, chain, cur);
      state := state[cur := Grey];
      chain := chain + [cur];
      cur := p;
    }
    if state[cur] == Grey {
      GreyIsInvalid(host, s, chain, cur, ordered);
      return false, state, chain, cur;
    }
    ok := true;
  }

  lemma NothingLinked(s: Arena, i: nat)
    ensures Linked(s, [], i)
  {
  }

  function WhiteCount(state: seq<Colour>): nat
  {
    if state == [] then 0 else WhiteCount(state[..|state| - 1]) + (if state[|state| - 1] == White then 1 else 0)
  }

  lemma {:induction false} WhiteShrinks(state: seq<Colour>, x: nat, c: Colour)
    requires x < |state| && state[x] == White && c != White
    ensures WhiteCount(state[x := c]) < WhiteCount(state)
  {
    var n := |state| - 1;
    if x == n {
      assert state[x := c][..n] == state[..n];
    } else {
      assert state[x := c][..n] == state[..n][x := c];
      WhiteShrinks(state[..n], x, c);
    }
  }
}
