/** Child lists, the uncached name lookup over them, and what a name cache must agree with. */
module ChildRows {
  import opened Words
  import opened Forest
  import opened Slots
  import opened Ancestors
  import opened Edits
  import opened Worklist

  type Rows = seq<seq<nat>>
  type Fold = Name -> Name
  type NameCache = map<Name, nat>

  /** Rows list each linked node under its parent, and nothing under a stranger. Dead entries may linger. */
  ghost predicate RowsFit(s: Arena, rows: Rows)
  {
    && |rows| == |s|
    && (forall i: nat, p: nat {:trigger ChildOf(Edges(s), i, p)} :: ChildOf(Edges(s), i, p) ==> i in rows[p])
    && (forall p: nat, k: nat {:trigger k in rows[p]} :: p < |s| && k in rows[p] ==>
          0 < k < |s| && s[k].parent == p && (s[k].used && s[p].used ==> HeapEdge(s, k) == Some(p)))
  }

  predicate Named(s: Arena, fold: Fold, key: Name, k: nat)
  {
    Valid(s, k) && fold(s[k].name) == key
  }

  /** The first live child in list order whose folded name is key. */
  function FirstLive(s: Arena, fold: Fold, kids: seq<nat>, key: Name): (r: Option<nat>)
    ensures r.Some? ==> r.value in kids && Named(s, fold, key, r.value)
    ensures r.None? ==> forall k :: k in kids ==> !Named(s, fold, key, k)
  {
    if kids == [] then None else
      var n := |kids| - 1;
      var r := FirstLive(s, fold, kids[..n], key);
      if r.Some? then r else if Named(s, fold, key, kids[n]) then Some(kids[n]) else None
  }

  /** First means first: every earlier entry of the row fails to match. */
  lemma {:induction false} FirstLiveIsFirst(s: Arena, fold: Fold, kids: seq<nat>, key: Name, j: nat)
    requires j < |kids| && Named(s, fold, key, kids[j])
    ensures FirstLive(s, fold, kids, key).Some?
    ensures exists i: nat :: i <= j && FirstLive(s, fold, kids, key) == Some(kids[i]) &&
              forall h: nat :: h < i ==> !Named(s, fold, key, kids[h])
  {
    var n := |kids| - 1;
    if FirstLive(s, fold, kids[..n], key).Some? {
      var h: nat :| h < n && Named(s, fold, key, kids[..n][h]);
      var m: nat := if j < n then j else h;
      FirstLiveIsFirst(s, fold, kids[..n], key, m);
      var i: nat :| i <= m && FirstLive(s, fold, kids[..n], key) == Some(kids[..n][i]) &&
              forall h: nat :: h < i ==> !Named(s, fold, key, kids[..n][h]);
      assert forall h: nat :: h < i ==> kids[..n][h] == kids[h];
    } else {
      assert forall h: nat :: h < n ==> kids[..n][h] == kids[h] && kids[h] in kids[..n];
      assert j == n;
    }
  }

  /** The memoised row agrees with a scan: absent keys match nothing, and a live entry is the first match. */
  ghost predicate CacheFits(s: Arena, fold: Fold, kids: seq<nat>, m: NameCache)
  {
    forall key :: if key !in m then FirstLive(s, fold, kids, key) == None
                  else m[key] in kids && (Valid(s, m[key]) ==> FirstLive(s, fold, kids, key) == Some(m[key]))
  }

  lemma {:induction false} FirstLivePersists(s: Arena, t: Arena, fold: Fold, kids: seq<nat>, key: Name)
    requires Persists(s, t) && forall k :: k in kids ==> k < |s|
    ensures FirstLive(s, fold, kids, key).None? ==> FirstLive(t, fold, kids, key).None?
    ensures FirstLive(s, fold, kids, key).Some? && t[FirstLive(s, fold, kids, key).value].used ==>
            FirstLive(t, fold, kids, key) == FirstLive(s, fold, kids, key)
  {
    if kids != [] {
      var init := kids[..|kids| - 1];
      assert forall k :: k in init ==> k in kids;
      assert kids[|kids| - 1] in kids;
      FirstLivePersists(s, t, fold, init, key);
    }
  }

  lemma CachePersists(s: Arena, t: Arena, fold: Fold, kids: seq<nat>, m: NameCache)
    requires CacheFits(s, fold, kids, m) && Persists(s, t) && forall k :: k in kids ==> k < |s|
    ensures CacheFits(t, fold, kids, m)
  {
    forall key
      ensures if key !in m then FirstLive(t, fold, kids, key) == None
              else m[key] in kids && (Valid(t, m[key]) ==> FirstLive(t, fold, kids, key) == Some(m[key]))
    {
      FirstLivePersists(s, t, fold, kids, key);
    }
  }

  /** The uncached lookup of one path component. */
  function Lookup(s: Arena, rows: Rows, fold: Fold, parent: nat, name: Name): (r: Option<nat>)
    requires |rows| == |s|
  {
    if IsDir(s, parent) then FirstLive(s, fold, rows[parent], fold(name)) else None
  }

  /** A stale entry is replaced by the next live match, or dropped when there is none. */
  lemma {:induction false} CacheRepaired(s: Arena, fold: Fold, kids: seq<nat>, m: NameCache, key: Name)
    requires CacheFits(s, fold, kids, m)
    ensures var r := FirstLive(s, fold, kids, key);
            CacheFits(s, fold, kids, if r.Some? then m[key := r.value] else m - {key})
  {
  }

  /** Every memoised row agrees with a scan of its child list. */
  ghost predicate CachesFit(s: Arena, fold: Fold, rows: Rows, caches: map<nat, NameCache>)
    requires |rows| == |s|
  {
    forall p :: p in caches ==> p < |s| && CacheFits(s, fold, rows[p], caches[p])
  }

  /** t is s with other totals and times. */
  ghost predicate SameLinks(s: Arena, t: Arena)
  {
    && |t| == |s|
    && forall i :: 0 <= i < |s| ==> t[i] == s[i].(size := t[i].size, files := t[i].files, mtime := t[i].mtime)
  }

  lemma TouchKeepsAllLinks(s: Arena, chain: seq<nat>, fn: Slot -> Slot)
    requires OnlyTotals(fn)
    ensures SameLinks(s, Touch(s, chain, fn))
  {
  }

  lemma RollUpKeepsLinks(s: Arena)
    ensures SameLinks(s, RollUp(s))
  {
  }

  lemma LinksKeepRows(s: Arena, t: Arena, rows: Rows)
    requires SameLinks(s, t) && RowsFit(s, rows)
    ensures RowsFit(t, rows) && Persists(s, t) && Edges(t) == Edges(s)
  {
    assert Edges(t) == Edges(s);
  }

  lemma CachesPersist(s: Arena, t: Arena, fold: Fold, rows: Rows, caches: map<nat, NameCache>)
    requires RowsFit(s, rows) && |t| == |s| && Persists(s, t) && CachesFit(s, fold, rows, caches)
    ensures CachesFit(t, fold, rows, caches)
  {
    forall p | p in caches ensures p < |t| && CacheFits(t, fold, rows[p], caches[p]) {
      CachePersists(s, t, fold, rows[p], caches[p]);
    }
  }

  lemma {:induction false} DeadNamesAreUnseen(s: Arena, t: Arena, fold: Fold, kids: seq<nat>, key: Name)
    requires forall k :: Named(t, fold, key, k) == Named(s, fold, key, k)
    ensures FirstLive(t, fold, kids, key) == FirstLive(s, fold, kids, key)
  {
    if kids != [] { DeadNamesAreUnseen(s, t, fold, kids[..|kids| - 1], key); }
  }

  /** Renaming a tombstone changes neither rows nor what the memoised rows may say. */
  lemma TombstoneNames(s: Arena, fold: Fold, rows: Rows, caches: map<nat, NameCache>, i: nat, name: Name)
    requires i < |s| && !s[i].used && RowsFit(s, rows) && CachesFit(s, fold, rows, caches)
    ensures var t := s[i := s[i].(name := name)]; RowsFit(t, rows) && CachesFit(t, fold, rows, caches) && Edges(t) == Edges(s)
  {
    var t := s[i := s[i].(name := name)];
    assert Edges(t) == Edges(s);
    forall p | p in caches ensures CacheFits(t, fold, rows[p], caches[p]) {
      forall key ensures FirstLive(t, fold, rows[p], key) == FirstLive(s, fold, rows[p], key) {
        DeadNamesAreUnseen(s, t, fold, rows[p], key);
      }
    }
  }

  // -- Rows while nodes are appended and linked ------------------------------------------

  /** RowsFit, except that nodes from n on need not be listed yet. */
  ghost predicate RowsFitTo(s: Arena, rows: Rows, n: nat)
  {
    && |rows| == |s|
    && (forall i: nat, p: nat {:trigger ChildOf(Edges(s), i, p)} :: i < n && ChildOf(Edges(s), i, p) ==> i in rows[p])
    && (forall p: nat, k: nat {:trigger k in rows[p]} :: p < |s| && k in rows[p] ==>
          0 < k < |s| && s[k].parent == p && (s[k].used && s[p].used ==> HeapEdge(s, k) == Some(p)))
  }

  lemma RowsFitAll(s: Arena, rows: Rows, n: nat)
    requires RowsFitTo(s, rows, n) && n >= |s|
    ensures RowsFit(s, rows)
  {
  }

  lemma LinkRow(s: Arena, rows: Rows, i: nat)
    requires RowsFitTo(s, rows, i) && i < |s|
    ensures HeapEdge(s, i).None? ==> RowsFitTo(s, rows, i + 1)
    ensures HeapEdge(s, i).Some? ==>
              var p := HeapEdge(s, i).value; RowsFitTo(s, rows[p := rows[p] + [i]], i + 1)
  {
  }

  /** Appending nodes extends the graph, and leaves the old rows fitting. */
  lemma RowsExtend(s: Arena, t: Arena, rows: Rows, rows': Rows)
    requires RowsFit(s, rows) && s <= t && rows <= rows' && |rows'| == |t|
    requires forall p :: |s| <= p < |t| ==> rows'[p] == []
    requires Extends(Edges(s), Edges(t))
    ensures RowsFitTo(t, rows', |s|)
  {
    forall i: nat, p: nat {:trigger ChildOf(Edges(t), i, p)} | i < |s| && ChildOf(Edges(t), i, p) ensures i in rows'[p] {
      assert ChildOf(Edges(s), i, p);
    }
  }

  /** Appended nodes start with empty rows. */
  lemma CachesExtend(s: Arena, t: Arena, fold: Fold, rows: Rows, rows': Rows, caches: map<nat, NameCache>)
    requires RowsFitTo(s, rows, 0) && s <= t && |rows'| == |t| && rows <= rows' && CachesFit(s, fold, rows, caches)
    ensures CachesFit(t, fold, rows', caches)
  {
    forall p | p in caches ensures p < |t| && CacheFits(t, fold, rows'[p], caches[p]) {
      CachePersists(s, t, fold, rows[p], caches[p]);
    }
  }

  lemma LinksKeepAll(s: Arena, t: Arena, fold: Fold, rows: Rows, caches: map<nat, NameCache>)
    requires SameLinks(s, t) && RowsFit(s, rows) && CachesFit(s, fold, rows, caches)
    ensures RowsFit(t, rows) && CachesFit(t, fold, rows, caches)
  {
    LinksKeepRows(s, t, rows);
    CachesPersist(s, t, fold, rows, caches);
  }

  // -- Canonical rows ---------------------------------------------------------------------

  ghost predicate Ascending(r: seq<nat>)
  {
    forall a, b :: 0 <= a < b < |r| ==> r[a] < r[b]
  }

  /** The children of p among the first n nodes, in slot order. */
  function ChildIds(s: Arena, p: nat, n: nat): (r: seq<nat>)
    requires n <= |s|
    ensures Ascending(r) && forall a :: 0 <= a < |r| ==> r[a] < n
    ensures forall k :: k in r <==> 0 <= k < n && HeapEdge(s, k) == Some(p)
  {
    if n == 0 then [] else
      var r := ChildIds(s, p, n - 1);
      if HeapEdge(s, n - 1) == Some(p) then r + [n - 1] else r
  }

  function CanonRows(s: Arena): (r: Rows)
    ensures |r| == |s|
    ensures forall p :: 0 <= p < |s| ==> r[p] == ChildIds(s, p, |s|)
  {
    seq(|s|, (p: nat) => ChildIds(s, p, |s|))
  }

  /** Ascending lists with the same members are the same list. */
  lemma {:induction false} AscendingUnique(a: seq<nat>, b: seq<nat>)
    requires Ascending(a) && Ascending(b) && forall x :: x in a <==> x in b
    ensures a == b
  {
    if a == [] {
      if b != [] { HeadMember(b); }
    } else {
      assert a[0] in b;
      var n, m := |a| - 1, |b| - 1;
      assert a[n] in b && b[m] in a;
      assert a[n] == b[m];
      forall x ensures x in a[..n] <==> x in b[..m] {
        InitMember(a, x);
        InitMember(b, x);
      }
      AscendingUnique(a[..n], b[..m]);
    }
  }

  lemma HeadMember(b: seq<nat>)
    requires b != []
    ensures b[0] in b
  {
  }

  lemma InitMember(a: seq<nat>, x: nat)
    requires Ascending(a) && a != []
    ensures x in a[..|a| - 1] <==> x in a && x != a[|a| - 1]
  {
    if x in a && x != a[|a| - 1] {
      var k :| 0 <= k < |a| && a[k] == x;
      assert a[..|a| - 1][k] == x;
    }
  }

  // -- Paths ------------------------------------------------------------------------

  /** The node a component path names, component by component from the root. */
  function Resolve(s: Arena, rows: Rows, fold: Fold, path: seq<Name>): (r: Option<nat>)
    requires |rows| == |s|
    ensures r.Some? ==> Valid(s, r.value)
  {
    if path == [] then if Valid(s, 0) then Some(0) else None
    else
      match Resolve(s, rows, fold, path[..|path| - 1])
      case None => None
      case Some(p) => Lookup(s, rows, fold, p, path[|path| - 1])
  }

  lemma {:induction false} ResolveNeedsPrefix(s: Arena, rows: Rows, fold: Fold, path: seq<Name>, n: nat)
    requires |rows| == |s| && n <= |path| && Resolve(s, rows, fold, path[..n]).None?
    ensures Resolve(s, rows, fold, path).None?
  {
    if n < |path| {
      var init := path[..|path| - 1];
      assert init[..n] == path[..n];
      ResolveNeedsPrefix(s, rows, fold, init, n);
    } else {
      assert path[..n] == path;
    }
  }

  /** A path of n components names a node n levels below the root. */
  lemma {:induction false} ResolvedDepth(s: Arena, rows: Rows, fold: Fold, path: seq<Name>)
    requires WellFormed(s) && RowsFit(s, rows) && Resolve(s, rows, fold, path).Some?
    ensures Up(Edges(s), Resolve(s, rows, fold, path).value, |path| + 1).None?
    ensures path != [] ==> Resolve(s, rows, fold, path).value != 0
    ensures path != [] ==> Resolve(s, rows, fold, path[..|path| - 1]) == Some(s[Resolve(s, rows, fold, path).value].parent as nat)
  {
    var e := Edges(s);
    var i := Resolve(s, rows, fold, path).value;
    assert Up(e, i, 0) == Some(i);
    if path == [] {
      assert Up(e, i, 1).None?;
    } else {
      var p := Resolve(s, rows, fold, path[..|path| - 1]).value;
      assert i in rows[p];
      ResolvedDepth(s, rows, fold, path[..|path| - 1]);
      assert e[i] == Some(p);
      assert Up(e, i, 1) == Some(p);
      UpCompose(e, i, p, 1, |path|);
    }
  }
}
