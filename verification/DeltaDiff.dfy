/** Finding what a delta must say: by comparing whole trees, or from the overrides alone. */
module DeltaDiff {
  import opened Words
  import opened Forest
  import opened Slots
  import opened Ancestors
  import opened ChildRows
  import opened Validation
  import opened BaseFormat
  import opened BaseRoundTrip
  import opened Decoding
  import opened OrderedEncoder
  import opened SizeTrees
  import opened IncrementalValidation
  import opened DeltaFormat
  import opened DeltaImage
  import opened DeltaRoundTrip

  /** What the delta of t over the base says. */
  function DiffOf(base: Decoded, t: Arena): Diff
    requires |base.slots| <= |t| <= PARENT_LIMIT
  {
    Diff(t, |base.slots|, base.nameOffs, ChangedIds(base.slots, t, |base.slots|), NewLists(t, |base.slots|, |t|))
  }

  /** Live appended nodes hang off live directories. */
  ghost predicate AppendedLinked(t: Arena, bn: nat)
  {
    forall k: nat :: bn <= k < |t| && t[k].used ==> HeapEdge(t, k) == Some(t[k].parent as nat)
  }

  lemma NewChildIff(t: Arena, bn: nat, p: nat)
    ensures HasNewChild(t, bn, p) <==> exists k: nat :: bn <= k < |t| && HeapEdge(t, k) == Some(p)
  {
    hide HeapEdge;
    var r := ChildIds(t, p, |t|);
    if HasNewChild(t, bn, p) {
      assert r[|r| - 1] in r;
    }
    if k: nat :| bn <= k < |t| && HeapEdge(t, k) == Some(p) {
      assert k in r;
      var a :| 0 <= a < |r| && r[a] == k;
    }
  }

  // -- The lists by parent -----------------------------------------------------------------

  /** Parents with an appended child among the first n nodes. */
  ghost predicate ParentsTo(t: Arena, bn: nat, keys: set<nat>, n: nat)
  {
    forall p: nat :: p in keys <==> exists k: nat :: bn <= k < n <= |t| && HeapEdge(t, k) == Some(p)
  }

  lemma ParentsNext(t: Arena, bn: nat, keys: set<nat>, n: nat)
    requires ParentsTo(t, bn, keys, n) && bn <= n < |t| && AppendedLinked(t, bn)
    ensures ParentsTo(t, bn, if t[n].used then keys + {t[n].parent as nat} else keys, n + 1)
  {
    var keys' := if t[n].used then keys + {t[n].parent as nat} else keys;
    forall p: nat ensures p in keys' <==> exists k: nat :: bn <= k < n + 1 && HeapEdge(t, k) == Some(p) {
      if p in keys {
        var k: nat :| bn <= k < n && HeapEdge(t, k) == Some(p);
      }
      if t[n].used && p == t[n].parent {
        assert HeapEdge(t, n) == Some(p);
      }
    }
  }

  /** The parents that need a list, each with an empty one. */
  method NewParents(t: Arena, bn: nat) returns (extra: map<nat, seq<nat>>)
    requires bn <= |t| && AppendedLinked(t, bn)
    ensures forall p: nat :: p in extra <==> HasNewChild(t, bn, p)
    ensures forall p :: p in extra ==> extra[p] == []
  {
    hide AppendedLinked, HeapEdge, ChildIds, ParentsTo;
    extra := map[];
    NoParents(t, bn);
    assert extra.Keys == {};
    for i := bn to |t|
      invariant ParentsTo(t, bn, extra.Keys, i) && forall p :: p in extra ==> extra[p] == []
    {
      ParentsNext(t, bn, extra.Keys, i);
      if t[i].used {
        ghost var keys := extra.Keys;
        extra := extra[t[i].parent as nat := []];
        assert extra.Keys == keys + {t[i].parent as nat};
      }
    }
    AllParents(t, bn, extra.Keys);
  }

  lemma NoParents(t: Arena, bn: nat)
    ensures ParentsTo(t, bn, {}, bn)
  {
  }

  lemma AllParents(t: Arena, bn: nat, keys: set<nat>)
    requires ParentsTo(t, bn, keys, |t|)
    ensures forall p: nat :: p in keys <==> HasNewChild(t, bn, p)
  {
    hide HasNewChild;
    forall p: nat ensures p in keys <==> HasNewChild(t, bn, p) { NewChildIff(t, bn, p); }
  }

  /** Every list is its parent's children. */
  ghost predicate Complete(t: Arena, bn: nat, extra: map<nat, seq<nat>>)
  {
    && (forall p: nat :: p in extra <==> HasNewChild(t, bn, p))
    && forall p :: p in extra ==> extra[p] == ChildIds(t, p, |t|)
  }

  /** The full comparison hands every live node to its parent's list, if there is one. */
  method FillByScan(host: Host, t: Arena, extra0: map<nat, seq<nat>>) returns (extra: map<nat, seq<nat>>)
    requires ValidTree(host, t, true) && forall p :: p in extra0 ==> extra0[p] == []
    ensures extra.Keys == extra0.Keys && forall p :: p in extra ==> extra[p] == ChildIds(t, p, |t|)
  {
    hide ValidTree, ChildIds, HeapEdge;
    extra := extra0;
    forall p: nat ensures ChildIds(t, p, 0) == [] { NoChildren(t, p); }
    for i := 0 to |t|
      invariant extra.Keys == extra0.Keys && forall p :: p in extra ==> extra[p] == ChildIds(t, p, i)
    {
      ScanStep(host, t, i);
      if i > 0 && t[i].used {
        if t[i].parent as nat in extra {
          extra := extra[t[i].parent as nat := extra[t[i].parent as nat] + [i]];
        }
      }
    }
  }

  lemma {:induction false} NoChildren(t: Arena, p: nat)
    ensures ChildIds(t, p, 0) == []
  {
  }

  lemma {:induction false} ScanStep(host: Host, t: Arena, i: nat)
    requires ValidTree(host, t, true) && i < |t|
    ensures forall p: nat :: ChildIds(t, p, i + 1) == if i > 0 && t[i].used && t[i].parent == p then ChildIds(t, p, i) + [i] else ChildIds(t, p, i)
  {
    hide ValidTree;
    if i > 0 && t[i].used { ValidEdge(host, t, i); }
    forall p: nat ensures ChildIds(t, p, i + 1) == if i > 0 && t[i].used && t[i].parent == p then ChildIds(t, p, i) + [i] else ChildIds(t, p, i) {
      ChildStep(t, i, p);
    }
  }

  /** The members of a list in order, each once. */
  function SortUnique(r: seq<nat>): (u: seq<nat>)
    ensures Ascending(u) && forall x :: x in u <==> x in r
  {
    if r == [] then [] else
      var u := SortUnique(r[1..]);
      assert r == [r[0]] + r[1..];
      if r[0] in u then u else InsertId(r[0], u)
  }

  /** The override-only writer keeps the entries of a row that are live and claim the parent, sorted, once each. */
  method FillByRow(t: Arena, p: nat, row: seq<nat>) returns (kids: seq<nat>)
    requires IsDir(t, p) && (forall k: nat :: k < |t| && HeapEdge(t, k) == Some(p) ==> k in row)
    requires forall k: nat :: 0 < k < |t| && t[k].used && t[k].parent == p ==> k != p
    ensures kids == ChildIds(t, p, |t|)
  {
    hide ChildIds;
    var kept: seq<nat> := [];
    for i := 0 to |row|
      invariant forall x :: x in kept <==> x in row[..i] && Kept(t, p, x)
    {
      assert row[..i + 1] == row[..i] + [row[i]];
      if Kept(t, p, row[i]) {
        kept := kept + [row[i]];
      }
    }
    assert row[..|row|] == row;
    kids := SortUnique(kept);
    forall x: nat ensures x in kids <==> x in ChildIds(t, p, |t|) {
      assert Kept(t, p, x) <==> x < |t| && HeapEdge(t, x) == Some(p);
    }
    AscendingUnique(kids, ChildIds(t, p, |t|));
  }

  predicate Kept(t: Arena, p: nat, k: nat)
  {
    0 < k < |t| && t[k].used && t[k].parent == p
  }

  // -- In parent order -----------------------------------------------------------------------------

  function ParentsOf(lists: seq<KidList>): (r: seq<nat>)
    ensures |r| == |lists| && forall i :: 0 <= i < |r| ==> r[i] == lists[i].parent
  {
    seq(|lists|, (i: nat) requires i < |lists| => lists[i].parent)
  }

  /** Lists in ascending parent order with the right parents and kids are the delta's lists. */
  lemma {:induction false} ListsAreNew(t: Arena, bn: nat, lists: seq<KidList>)
    requires |t| <= PARENT_LIMIT && Ascending(ParentsOf(lists))
    requires forall p: nat :: p in ParentsOf(lists) <==> p < |t| && HasNewChild(t, bn, p)
    requires forall i :: 0 <= i < |lists| ==> lists[i].kids == ChildIds(t, lists[i].parent, |t|)
    ensures lists == NewLists(t, bn, |t|)
  {
    hide ChildIds, NewLists, HasNewChild;
    var all := NewLists(t, bn, |t|);
    NewListsAre(t, bn, |t|);
    ListedHaveNew(t, bn, |t|);
    forall p: nat ensures p in ParentsOf(all) <==> p in ParentsOf(lists) {
      if p < |t| && HasNewChild(t, bn, p) {
        var i :| 0 <= i < |all| && all[i].parent == p;
        assert ParentsOf(all)[i] == p;
      }
    }
    AscendingUnique(ParentsOf(all), ParentsOf(lists));
    forall i | 0 <= i < |all| ensures all[i] == lists[i] {
      assert ParentsOf(all)[i] == ParentsOf(lists)[i];
    }
  }

  lemma {:induction false} ListedHaveNew(t: Arena, bn: nat, m: nat)
    requires m <= |t| <= PARENT_LIMIT
    ensures forall i :: 0 <= i < |NewLists(t, bn, m)| ==> HasNewChild(t, bn, NewLists(t, bn, m)[i].parent)
  {
    hide HasNewChild;
    if m > 0 { ListedHaveNew(t, bn, m - 1); }
  }

  /** The keys of a table, in order. */
  method SortedKeys(extra: map<nat, seq<nat>>) returns (parents: seq<nat>)
    ensures Ascending(parents) && forall p :: p in parents <==> p in extra
  {
    parents := [];
    var left := extra.Keys;
    while left != {}
      invariant left <= extra.Keys && Distinct(parents) && forall p :: p in parents <==> p in extra && p !in left
      decreases |left|
    {
      var p :| p in left;
      parents := parents + [p];
      left := left - {p};
    }
    parents := SortIds(parents);
  }

  method InParentOrder(t: Arena, bn: nat, extra: map<nat, seq<nat>>) returns (lists: seq<KidList>)
    requires |t| <= PARENT_LIMIT && Complete(t, bn, extra)
    ensures lists == NewLists(t, bn, |t|)
  {
    hide ChildIds, HasNewChild, NewLists;
    var parents := SortedKeys(extra);
    lists := [];
    for i := 0 to |parents|
      invariant |lists| == i
      invariant forall j :: 0 <= j < i ==> lists[j].parent == parents[j] && lists[j].kids == ChildIds(t, parents[j], |t|)
    {
      assert parents[i] in parents;
      NewParentInRange(t, bn, parents[i]);
      lists := lists + [KidList(parents[i], extra[parents[i]])];
    }
    assert ParentsOf(lists) == parents;
    forall p: nat | HasNewChild(t, bn, p) ensures p < |t| { NewParentInRange(t, bn, p); }
    ListsAreNew(t, bn, lists);
  }

  lemma NewParentInRange(t: Arena, bn: nat, p: nat)
    requires HasNewChild(t, bn, p)
    ensures p < |t|
  {
    NewChildIff(t, bn, p);
  }

  // -- The two ways ----------------------------------------------------------------------------------

  ghost predicate Identified(base: Decoded, t: Arena)
  {
    |base.slots| <= |t| && forall i :: 0 <= i < |base.slots| ==> SameIdentity(t[i], base.slots[i])
  }

  /** The changed base ids, unless some base identity changed. */
  method CompareBase(base: Decoded, t: Arena) returns (r: Option<seq<nat>>)
    requires |base.slots| <= |t|
    ensures r.Some? <==> Identified(base, t)
    ensures r.Some? ==> r.value == ChangedIds(base.slots, t, |base.slots|)
  {
    var ids := [];
    for i := 0 to |base.slots|
      invariant forall j :: 0 <= j < i ==> SameIdentity(t[j], base.slots[j])
      invariant ids == ChangedIds(base.slots, t, i)
    {
      if !SameIdentity(t[i], base.slots[i]) {
        return None;
      }
      if t[i] != base.slots[i] {
        ids := ids + [i];
      }
    }
    return Some(ids);
  }

  lemma ValidIsLinked(host: Host, t: Arena, bn: nat)
    requires ValidTree(host, t, true) && bn > 0
    ensures AppendedLinked(t, bn) && |t| <= PARENT_LIMIT
  {
    forall k: nat | bn <= k < |t| && t[k].used ensures HeapEdge(t, k) == Some(t[k].parent as nat) {
      ValidEdge(host, t, k);
    }
  }

  /** The delta of a whole tree against its base; none if the slots no longer match or the tree cannot be written. */
  method DiffTree(host: Host, base: Decoded, t: Arena) returns (r: Option<Diff>)
    requires |base.slots| > 0
    ensures r.Some? <==> ValidTree(host, t, true) && Identified(base, t)
    ensures r.Some? ==> |t| <= PARENT_LIMIT && r.value == DiffOf(base, t)
  {
    hide ValidTree, ChangedIds, NewLists, HasNewChild, ChildIds, AppendedLinked;
    var bn := |base.slots|;
    if |t| < bn {
      return None;
    }
    var ok := ValidateDiskTree(host, t, true);
    if !ok {
      return None;
    }
    var ids := CompareBase(base, t);
    if ids.None? {
      return None;
    }
    ValidIsLinked(host, t, bn);
    var extra := NewParents(t, bn);
    extra := FillByScan(host, t, extra);
    var lists := InParentOrder(t, bn, extra);
    return Some(Diff(t, bn, base.nameOffs, ids.value, lists));
  }

  lemma EditsAreLinked(host: Host, base: MappedBase, overrides: map<nat, Slot>, entries: Arena, kids: Rows)
    requires InBase(base, overrides) && BaseOk(host, base, Edited(base, overrides, entries), kids) && EditsOk(host, base, overrides, entries, kids)
    ensures var t := Edited(base, overrides, entries);
            && AppendedLinked(t, |base.slots|) && |t| <= PARENT_LIMIT && |base.slots| > 0
            && forall k: nat :: 0 < k < |t| && t[k].used ==> t[k].parent != k
  {
    hide Acyclic, SafeName, Representable, CountKind;
    var t := Edited(base, overrides, entries);
    forall k: nat | |base.slots| <= k < |t| && t[k].used ensures HeapEdge(t, k) == Some(t[k].parent as nat) {
      assert AppendedOk(host, t, k);
    }
    forall k: nat | 0 < k < |t| && t[k].used ensures t[k].parent != k {
      if k >= |base.slots| {
        assert AppendedOk(host, t, k);
      } else if k in overrides {
        assert OverrideOk(host, base, t, kids, k);
      } else {
        assert LinkOk(host, base.slots, k, true);
      }
    }
  }

  lemma {:induction false} ChangedUnique(base: MappedBase, t: Arena, ids: seq<nat>)
    requires |base.slots| <= |t| && Ascending(ids) && forall i :: i in ids <==> IsChanged(base, t, i)
    ensures ids == ChangedIds(base.slots, t, |base.slots|)
  {
    AscendingUnique(ids, ChangedIds(base.slots, t, |base.slots|));
  }

  lemma NewParentIsDir(t: Arena, bn: nat, p: nat)
    requires HasNewChild(t, bn, p)
    ensures IsDir(t, p)
  {
    NewChildIff(t, bn, p);
  }

  /** The same delta and true counts, from the overrides and the rows of the changed parents alone. */
  method DiffOverrides(host: Host, base: Decoded, overrides: map<nat, Slot>, entries: Arena, kids: Rows) returns (ok: bool, x: Diff, files: int, dirs: int)
    requires InBase(BaseView(base), overrides) && BaseOk(host, BaseView(base), Edited(BaseView(base), overrides, entries), kids)
    requires RowsFit(Edited(BaseView(base), overrides, entries), kids)
    ensures ok <==> EditsOk(host, BaseView(base), overrides, entries, kids)
    ensures ok ==> |Edited(BaseView(base), overrides, entries)| <= PARENT_LIMIT && x == DiffOf(base, Edited(BaseView(base), overrides, entries))
    ensures ok ==> files == CountKind(Edited(BaseView(base), overrides, entries), false) && dirs == CountKind(Edited(BaseView(base), overrides, entries), true)
  {
    hide ChangedIds, NewLists, HasNewChild, ChildIds, AppendedLinked, EditsOk, BaseOk, RowsFit, CountKind, Edited;
    var t := Edited(BaseView(base), overrides, entries);
    var bn, ids := |base.slots|, [];
    x := Diff(t, bn, base.nameOffs, [], []);
    ok, ids, files, dirs := ValidateOverrides(host, BaseView(base), overrides, entries, kids);
    if !ok {
      return;
    }
    EditsAreLinked(host, BaseView(base), overrides, entries, kids);
    ChangedUnique(BaseView(base), t, ids);
    var extra := NewParents(t, bn);
    extra := FillAllRows(t, bn, extra, kids);
    var lists := InParentOrder(t, bn, extra);
    x := Diff(t, bn, base.nameOffs, ids, lists);
  }

  method FillAllRows(t: Arena, bn: nat, extra0: map<nat, seq<nat>>, kids: Rows) returns (extra: map<nat, seq<nat>>)
    requires RowsFit(t, kids) && (forall p: nat :: p in extra0 <==> HasNewChild(t, bn, p))
    requires forall k: nat :: 0 < k < |t| && t[k].used ==> t[k].parent != k
    ensures Complete(t, bn, extra)
  {
    hide HasNewChild, ChildIds, HeapEdge;
    extra := extra0;
    var left := extra0.Keys;
    while left != {}
      invariant left <= extra0.Keys == extra.Keys
      invariant forall p :: p in extra && p !in left ==> extra[p] == ChildIds(t, p, |t|)
      decreases |left|
    {
      var p :| p in left;
      NewParentIsDir(t, bn, p);
      forall k: nat | k < |t| && HeapEdge(t, k) == Some(p) ensures k in kids[p] {
        assert ChildOf(Edges(t), k, p);
      }
      var row := FillByRow(t, p, kids[p]);
      extra := extra[p := row];
      left := left - {p};
    }
  }

  /** Whenever the fast path speaks and no orphan is left, the full comparison says the same. */
  lemma FastIsFull(host: Host, base: Decoded, overrides: map<nat, Slot>, entries: Arena, kids: Rows)
    requires InBase(BaseView(base), overrides) && BaseOk(host, BaseView(base), Edited(BaseView(base), overrides, entries), kids)
    requires EditsOk(host, BaseView(base), overrides, entries, kids) && NoOrphans(Edited(BaseView(base), overrides, entries))
    ensures ValidTree(host, Edited(BaseView(base), overrides, entries), true) && Identified(base, Edited(BaseView(base), overrides, entries))
  {
    hide ValidTree, BaseOk, NoOrphans;
    var t := Edited(BaseView(base), overrides, entries);
    KidsLong(host, BaseView(base), t, kids);
    IncrementalImpliesFull(host, BaseView(base), overrides, entries, kids);
    forall i | 0 <= i < |base.slots| ensures SameIdentity(t[i], base.slots[i]) {
      if i in overrides { assert OverrideOk(host, BaseView(base), t, kids, i); }
    }
  }

  /** Trees kept by the editing operations meet what the fast path asks for, and leave no orphan. */
  lemma EditedTreesQualify(host: Host, base: MappedBase, overrides: map<nat, Slot>, entries: Arena, kids: Rows)
    requires Compacted(host, base.slots) && base.files == CountKind(base.slots, false) && base.dirs == CountKind(base.slots, true)
    requires WellFormed(Edited(base, overrides, entries)) && RowsFit(Edited(base, overrides, entries), kids)
    ensures BaseOk(host, base, Edited(base, overrides, entries), kids) && NoOrphans(Edited(base, overrides, entries))
  {
    hide Compacted, CountKind, Acyclic;
    var t := Edited(base, overrides, entries);
    forall k: nat, p: nat {:trigger Claims(t, p, k)} | 0 < k < |base.slots| && p < |base.slots| && Claims(t, p, k) ensures k in kids[p] {
      assert ChildOf(Edges(t), k, p);
    }
  }
}
