/** The stack that buries a subtree: what each pop keeps, and that it ends with the whole subtree dead. */
module Removal {
  import opened Words
  import opened Forest
  import opened Slots
  import opened Edits
  import opened ChildRows

  /** s with the nodes of `gone` turned into tombstones. */
  ghost function Fallen(s: Arena, gone: set<nat>): (t: Arena)
    ensures |t| == |s|
    ensures forall i :: 0 <= i < |s| ==> t[i] == if i in gone then s[i].(used := false) else s[i]
  {
    seq(|s|, (i: nat) requires i < |s| => if i in gone then s[i].(used := false) else s[i])
  }

  /** Every linked child of a buried node is buried or on the stack. */
  ghost predicate Closing(s: Arena, gone: set<nat>, stack: seq<nat>)
  {
    forall j: nat, c: nat {:trigger ChildOf(Edges(s), j, c)} :: c in gone && ChildOf(Edges(s), j, c) ==> j in gone || j in stack
  }

  ghost predicate Burying(s: Arena, t: Arena, idx: nat, gone: set<nat>, stack: seq<nat>)
  {
    && t == Fallen(s, gone)
    && (forall c :: c in gone ==> Valid(s, c) && AtOrBelow(Edges(s), c, idx))
    && (forall k :: k in stack ==> k < |s| && (s[k].used ==> AtOrBelow(Edges(s), k, idx)))
    && (idx in gone || idx in stack)
    && Closing(s, gone, stack)
  }

  lemma StartBurying(s: Arena, idx: nat)
    requires Valid(s, idx)
    ensures Burying(s, s, idx, {}, [idx])
  {
    assert s == Fallen(s, {});
  }

  lemma LastOf(stack: seq<nat>, x: nat)
    requires stack != []
    ensures x in stack <==> x in stack[..|stack| - 1] || x == stack[|stack| - 1]
  {
    if x in stack {
      var j :| 0 <= j < |stack| && stack[j] == x;
      if j < |stack| - 1 { assert stack[..|stack| - 1][j] == x; }
    }
  }

  /** A popped tombstone changes nothing. */
  lemma PopDead(s: Arena, t: Arena, idx: nat, gone: set<nat>, stack: seq<nat>)
    requires Burying(s, t, idx, gone, stack) && stack != [] && Valid(s, idx)
    requires !Valid(t, stack[|stack| - 1])
    ensures Burying(s, t, idx, gone, stack[..|stack| - 1])
  {
    var cur, rest := stack[|stack| - 1], stack[..|stack| - 1];
    assert cur in stack;
    forall x ensures x in stack <==> x in rest || x == cur { LastOf(stack, x); }
    forall j: nat, c: nat {:trigger ChildOf(Edges(s), j, c)} | c in gone && ChildOf(Edges(s), j, c) ensures j in gone || j in rest {
      assert j in gone || j in stack;
      assert HeapEdge(s, j) == Some(c);
    }
  }

  lemma PushCloses(s: Arena, rows: Rows, gone: set<nat>, stack: seq<nat>)
    requires Closing(s, gone, stack) && RowsFit(s, rows) && stack != [] && stack[|stack| - 1] < |s|
    ensures Closing(s, gone + {stack[|stack| - 1]}, stack[..|stack| - 1] + rows[stack[|stack| - 1]])
  {
    var cur, rest := stack[|stack| - 1], stack[..|stack| - 1];
    forall j: nat, c: nat {:trigger ChildOf(Edges(s), j, c)} | c in gone + {cur} && ChildOf(Edges(s), j, c)
      ensures j in gone + {cur} || j in rest + rows[cur]
    {
      if c in gone && j !in gone { LastOf(stack, j); }
    }
  }

  /** A popped live node is buried and its children are pushed. */
  lemma PopLive(s: Arena, t: Arena, rows: Rows, idx: nat, gone: set<nat>, stack: seq<nat>)
    requires Burying(s, t, idx, gone, stack) && stack != [] && RowsFit(s, rows)
    requires Valid(t, stack[|stack| - 1])
    ensures stack[|stack| - 1] < |s|
    ensures var cur := stack[|stack| - 1];
            cur !in gone && Burying(s, t[cur := t[cur].(used := false)], idx, gone + {cur}, stack[..|stack| - 1] + rows[cur])
  {
    var cur, rest := stack[|stack| - 1], stack[..|stack| - 1];
    assert cur in stack;
    forall x ensures x in stack <==> x in rest || x == cur { LastOf(stack, x); }
    assert t[cur := t[cur].(used := false)] == Fallen(s, gone + {cur});
    PushCloses(s, rows, gone, stack);
    hide Closing, RowsFit;
    forall k | k in rows[cur] ensures k < |s| && (s[k].used ==> AtOrBelow(Edges(s), k, idx)) {
      PushedBelow(s, rows, idx, cur, k);
    }
  }

  lemma PushedBelow(s: Arena, rows: Rows, idx: nat, cur: nat, k: nat)
    requires RowsFit(s, rows) && Valid(s, cur) && AtOrBelow(Edges(s), cur, idx) && k in rows[cur]
    ensures k < |s| && (s[k].used ==> AtOrBelow(Edges(s), k, idx))
  {
    if s[k].used {
      assert Edges(s)[k] == Some(cur);
      ReachesFirstStep(Edges(s), k, idx);
    }
  }

  lemma {:induction false} BelowIsGone(s: Arena, idx: nat, gone: set<nat>, i: nat, k: nat)
    requires Closing(s, gone, []) && idx in gone
    requires i < |s| && Up(Edges(s), i, k) == Some(idx)
    ensures i in gone
    decreases k
  {
    if k > 0 {
      var e := Edges(s);
      UpPrefix(e, i, 1, k);
      assert Up(e, i, 0) == Some(i);
      var p := Up(e, i, 1).value;
      UpCompose(e, i, p, 1, k - 1);
      BelowIsGone(s, idx, gone, p, k - 1);
      assert ChildOf(e, i, p);
    }
  }

  /** With the stack empty, the whole subtree and nothing else is buried. */
  lemma BuriedAll(s: Arena, t: Arena, idx: nat, gone: set<nat>)
    requires Burying(s, t, idx, gone, []) && Valid(s, idx)
    ensures t == Buried(s, idx)
  {
    forall i: nat | i < |s| ensures i in gone <==> AtOrBelow(Edges(s), i, idx) {
      if AtOrBelow(Edges(s), i, idx) && i != idx {
        var k: nat :| k >= 1 && Up(Edges(s), i, k) == Some(idx);
        BelowIsGone(s, idx, gone, i, k);
      }
    }
  }

  lemma GoneBounded(s: Arena, t: Arena, idx: nat, gone: set<nat>, stack: seq<nat>)
    requires Burying(s, t, idx, gone, stack)
    ensures |gone| <= |s|
  {
    forall c | c in gone ensures c in Range(|s|) {}
    SubsetSize(gone, Range(|s|));
  }

  lemma BuryingPersists(s: Arena, t: Arena, rows: Rows, idx: nat, gone: set<nat>, stack: seq<nat>)
    requires Burying(s, t, idx, gone, stack) && RowsFit(s, rows)
    ensures Persists(s, t) && RowsFit(t, rows)
  {
    forall i: nat, p: nat {:trigger ChildOf(Edges(t), i, p)} | ChildOf(Edges(t), i, p) ensures i in rows[p] {
      assert ChildOf(Edges(s), i, p);
    }
  }
}
