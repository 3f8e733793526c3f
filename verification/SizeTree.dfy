/** The size index: stable node ids over a mapped base, its overrides and appended nodes. */
module SizeTrees {
  import opened Words
  import opened Sums
  import opened Forest
  import opened Slots
  import opened Ancestors
  import opened Worklist
  import opened Edits
  import opened Grafting
  import opened Links
  import opened Removal
  import opened ChildRows
  import opened Coverage

  /** The read view of a validated v7 file. */
  datatype MappedBase = MappedBase(slots: Arena, rows: Rows, files: nat, dirs: nat)

  /** The slots of a mapped base under its overrides. */
  function Overlay(base: Option<MappedBase>, overrides: map<nat, Slot>): (r: Arena)
    ensures |r| == if base.Some? then |base.value.slots| else 0
    ensures forall i :: 0 <= i < |r| ==> r[i] == if i in overrides then overrides[i] else base.value.slots[i]
  {
    match base
    case None => []
    case Some(b) => seq(|b.slots|, (i: nat) requires i < |b.slots| => if i in overrides then overrides[i] else b.slots[i])
  }

  /** An edited parent's own list, or else its base row, or else its heap row. */
  function RowOf(base: Option<MappedBase>, childEdits: map<nat, seq<nat>>, children: Rows, p: nat): seq<nat>
  {
    match base
    case Some(b) => if p in childEdits then childEdits[p] else if p < |b.rows| then b.rows[p] else []
    case None => if p < |children| then children[p] else []
  }

  ghost function RowsOf(base: Option<MappedBase>, childEdits: map<nat, seq<nat>>, children: Rows, n: nat): (r: Rows)
    ensures |r| == n
    ensures forall p :: 0 <= p < n ==> r[p] == RowOf(base, childEdits, children, p)
  {
    seq(n, (p: nat) => RowOf(base, childEdits, children, p))
  }

  class SizeTree {
    const fold: Fold
    // Nil for trees built in memory; otherwise shared and never written.
    var base: Option<MappedBase>
    var overrides: map<nat, Slot>
    // Nodes after the base; all nodes when there is none.
    var entries: seq<Slot>
    var children: Rows
    // Edited parents own their lists; the others read the base's rows.
    var childEdits: map<nat, seq<nat>>
    var childNames: map<nat, NameCache>
    var extraParents: map<nat, seq<nat>>
    // Where the tree is mounted, and the places below it that could not be read.
    const mount: seq<Name>
    var blocked: seq<Place>
    var ancestorStamp: seq<U32>
    var ancestorGen: U32

    function BaseCount(): nat
      reads this`base
    {
      if base.Some? then |base.value.slots| else 0
    }

    function NodeCount(): nat
      reads this`base, this`entries
    {
      BaseCount() + |entries|
    }

    /** The slots as readers see them. */
    ghost function Slots(): (s: Arena)
      reads this`base, this`overrides, this`entries
      ensures |s| == NodeCount()
    {
      Overlay(base, overrides) + entries
    }

    function At(i: nat): (e: Slot)
      requires i < NodeCount()
      reads this`base, this`overrides, this`entries
      ensures e == Slots()[i]
    {
      if i < BaseCount() then
        if i in overrides then overrides[i] else base.value.slots[i]
      else
        entries[i - BaseCount()]
    }

    predicate Live(i: nat)
      reads this`base, this`overrides, this`entries
      ensures Live(i) == Valid(Slots(), i)
    {
      i < NodeCount() && At(i).used
    }

    predicate LiveDir(i: nat)
      reads this`base, this`overrides, this`entries
      ensures LiveDir(i) == IsDir(Slots(), i)
    {
      i < NodeCount() && At(i).used && At(i).isDir
    }

    function ChildList(p: nat): (r: seq<nat>)
      reads this`base, this`childEdits, this`children
    {
      RowOf(base, childEdits, children, p)
    }

    ghost function Kids(): (r: Rows)
      reads this`base, this`childEdits, this`children, this`entries
      ensures |r| == NodeCount()
      ensures forall p :: 0 <= p < |r| ==> r[p] == ChildList(p)
    {
      RowsOf(base, childEdits, children, NodeCount())
    }

    /** The two representations keep to their own fields, and base nodes keep their identity. */
    ghost predicate Shaped()
      reads this`base, this`overrides, this`entries, this`children, this`childEdits
    {
      && NodeCount() <= MAX_U32
      && match base
         case Some(b) =>
           && WellFormed(b.slots) && RowsFit(b.slots, b.rows) && (forall i :: 0 <= i < |b.slots| ==> b.slots[i].used)
           && b.files == CountKind(b.slots, false) && b.dirs == CountKind(b.slots, true)
           && (forall i :: i in overrides ==> i < |b.slots| && overrides[i].parent == b.slots[i].parent && overrides[i].name == b.slots[i].name)
           && (forall p :: p in childEdits ==> p < NodeCount())
         case None => overrides == map[] && childEdits == map[] && |children| == |entries|
    }

    ghost predicate NamesFit()
      reads this`base, this`overrides, this`entries, this`children, this`childEdits, this`childNames
    {
      CachesFit(Slots(), fold, Kids(), childNames)
    }

    /** No stamp is newer than the current generation. */
    ghost predicate StampsFit()
      reads this`ancestorStamp, this`ancestorGen
    {
      forall i :: 0 <= i < |ancestorStamp| ==> ancestorStamp[i] <= ancestorGen
    }

    ghost predicate Ok()
      reads this
    {
      Shaped() && RowsFit(Slots(), Kids()) && NamesFit() && StampsFit()
    }

    /** A base node becomes an override; an appended node is written in place. */
    method SetSlot(i: nat, e: Slot)
      requires Shaped() && i < NodeCount() && e.parent == At(i).parent && e.name == At(i).name
      modifies this`overrides, this`entries
      ensures Shaped() && NodeCount() == old(NodeCount())
      ensures Slots() == old(Slots())[i := e]
    {
      hide WellFormed, RowsFit;
      if i < BaseCount() {
        overrides := overrides[i := e];
      } else {
        entries := entries[i - BaseCount() := e];
      }
    }

    /** The lookup of one path component, with its row memoised. */
    method FindChild(parent: nat, name: Name) returns (r: Option<nat>)
      requires Ok()
      modifies this`childNames
      ensures Ok()
      ensures r == Lookup(Slots(), Kids(), fold, parent, name)
    {
      hide Overlay, RowOf, RowsFit, FirstLive, Shaped;
      if !LiveDir(parent) {
        return None;
      }
      var m: NameCache := CachedRow(parent);
      var key := fold(name);
      if key !in m {
        return None;
      }
      if Live(m[key]) {
        return Some(m[key]);
      }
      r := Rescan(parent, key);
      ghost var row := ChildList(parent);
      CacheRepaired(Slots(), fold, row, m, key);
      m := if r.Some? then m[key := r.value] else m - {key};
      childNames := childNames[parent := m];
    }

    method CachedRow(parent: nat) returns (m: NameCache)
      requires Ok() && LiveDir(parent)
      modifies this`childNames
      ensures Ok() && CacheFits(Slots(), fold, ChildList(parent), m)
    {
      hide Overlay, RowOf, FirstLive, Shaped;
      if parent !in childNames {
        m := MemoiseRow(parent);
        childNames := childNames[parent := m];
      } else {
        m := childNames[parent];
      }
    }

    method MemoiseRow(parent: nat) returns (m: NameCache)
      requires Ok()
      ensures CacheFits(Slots(), fold, ChildList(parent), m)
    {
      m := map[];
      var kids := ChildList(parent);
      for i := 0 to |kids|
        invariant forall key :: (if key in m then Some(m[key]) else None) == FirstLive(Slots(), fold, kids[..i], key)
      {
        assert kids[..i + 1][..i] == kids[..i];
        var c := kids[i];
        if Live(c) {
          var key := fold(At(c).name);
          if key !in m {
            m := m[key := c];
          }
        }
      }
      assert kids[..|kids|] == kids;
    }

    method Rescan(parent: nat, key: Name) returns (r: Option<nat>)
      requires Ok()
      ensures r == FirstLive(Slots(), fold, ChildList(parent), key)
    {
      var kids := ChildList(parent);
      for i := 0 to |kids|
        invariant FirstLive(Slots(), fold, kids[..i], key) == None
      {
        assert kids[..i + 1][..i] == kids[..i];
        if Live(kids[i]) && fold(At(kids[i]).name) == key {
          FirstLiveStays(Slots(), fold, kids, i + 1, key);
          return Some(kids[i]);
        }
      }
      assert kids[..|kids|] == kids;
      return None;
    }

    method LinkEdge(parent: nat, idx: nat)
      requires Shaped() && parent < NodeCount()
      modifies this`children, this`childEdits
      ensures Shaped()
      ensures Kids() == old(Kids())[parent := old(Kids())[parent] + [idx]]
    {
      ghost var rows := Kids();
      if base.Some? {
        childEdits := childEdits[parent := ChildList(parent) + [idx]];
      } else {
        children := children[parent := children[parent] + [idx]];
      }
      assert Kids() == rows[parent := rows[parent] + [idx]];
    }

    /** Appends an edge; a cached row of the parent learns the name if it had none. */
    method Link(parent: nat, idx: nat)
      requires Shaped() && NamesFit() && parent < NodeCount() && Live(idx)
      modifies this`children, this`childEdits, this`childNames
      ensures Shaped() && NamesFit()
      ensures Kids() == old(Kids())[parent := old(Kids())[parent] + [idx]]
    {
      LinkedCaches(Slots(), fold, Kids(), childNames, parent, idx);
      LinkEdge(parent, idx);
      if parent in childNames {
        childNames := childNames[parent := Learn(childNames[parent], fold(At(idx).name), idx)];
      }
    }

    /** The node a path names, found through the name caches. */
    method FindNodeByPath(path: seq<Name>) returns (r: Option<nat>)
      requires Ok()
      modifies this`childNames
      ensures Ok()
      ensures r == Resolve(Slots(), Kids(), fold, path)
    {
      if !Live(0) {
        ResolveNeedsPrefix(Slots(), Kids(), fold, path, 0);
        return None;
      }
      var cur := 0;
      for i := 0 to |path|
        invariant Ok()
        invariant Resolve(Slots(), Kids(), fold, path[..i]) == Some(cur)
      {
        assert path[..i + 1][..i] == path[..i];
        var next := FindChild(cur, path[i]);
        if next.None? {
          ResolveNeedsPrefix(Slots(), Kids(), fold, path, i + 1);
          return None;
        }
        cur := next.value;
      }
      assert path[..|path|] == path;
      return Some(cur);
    }

    // -- Ancestor walks -----------------------------------------------------------

    /** A generation no stamp carries yet, over a scratch that covers every node. */
    method NextGeneration()
      requires Shaped() && StampsFit()
      modifies this`ancestorStamp, this`ancestorGen
      ensures StampsFit() && |ancestorStamp| >= NodeCount()
      ensures forall i :: 0 <= i < |ancestorStamp| ==> ancestorStamp[i] < ancestorGen
    {
      var n := NodeCount();
      if |ancestorStamp| < n {
        var doubled := 2 * |ancestorStamp|;
        ancestorStamp := seq(if n < doubled then doubled else n, i => 0);
      }
      if ancestorGen == MAX_U32 {
        ancestorStamp := seq(|ancestorStamp|, i => 0);
        ancestorGen := 1;
      } else {
        ancestorGen := ancestorGen + 1;
      }
    }

    /** Applies fn once to every node the bounded walk from idx visits. */
    method Ancestors(idx: nat, fn: Slot -> Slot)
      requires Shaped() && StampsFit() && OnlyTotals(fn)
      modifies this`overrides, this`entries, this`ancestorStamp, this`ancestorGen
      ensures Shaped() && StampsFit()
      ensures Slots() == Touch(old(Slots()), Chain(old(Slots()), idx), fn)
    {
      hide Climb, Touch, Chain, Overlay;
      ghost var s, chain := Slots(), Chain(Slots(), idx);
      WalkStart(s, fn, idx);
      NextGeneration();
      ghost var visited: seq<nat>, seen: set<nat> := [], {};
      var next: Option<nat>, depth: nat := Some(idx), 0;
      while next.Some? && depth <= 256 && Live(next.value) && ancestorStamp[next.value] != ancestorGen
        invariant Shaped() && StampsFit() && depth <= WALK_LIMIT && NodeCount() == |s|
        invariant Stamped(ancestorStamp, ancestorGen, |s|, seen)
        invariant if next.Some? then Walking(s, Slots(), fn, visited, seen, next.value, WALK_LIMIT - depth, chain)
                  else Slots() == Touch(s, chain, fn)
        decreases WALK_LIMIT - depth
      {
        ghost var cur := next.value;
        next := Visit(next.value, fn, s, visited, seen, WALK_LIMIT - depth, chain);
        visited, seen, depth := visited + [cur], seen + {cur}, depth + 1;
      }
      if next.Some? { WalkStep(s, Slots(), fn, visited, seen, next.value, WALK_LIMIT - depth, chain); }
    }

    /** Visits one node and says where the walk goes next. */
    method Visit(cur: nat, fn: Slot -> Slot, ghost s: Arena, ghost visited: seq<nat>, ghost seen: set<nat>, ghost fuel: nat, ghost chain: seq<nat>)
      returns (next: Option<nat>)
      requires Shaped() && StampsFit() && cur < NodeCount() == |s| && Stamped(ancestorStamp, ancestorGen, |s|, seen)
      requires fuel > 0 && Live(cur) && ancestorStamp[cur] != ancestorGen
      requires OnlyTotals(fn) && Walking(s, Slots(), fn, visited, seen, cur, fuel, chain)
      modifies this`overrides, this`entries, this`ancestorStamp
      ensures Shaped() && StampsFit() && NodeCount() == |s|
      ensures Stamped(ancestorStamp, ancestorGen, |s|, seen + {cur})
      ensures if next.Some? then Walking(s, Slots(), fn, visited + [cur], seen + {cur}, next.value, fuel - 1, chain)
              else Slots() == Touch(s, chain, fn)
    {
      hide Climb, Touch, Chain, Overlay, Shaped, OnlyTotals, Walking;
      WalkStep(s, Slots(), fn, visited, seen, cur, fuel, chain);
      KeepsIdentity(fn, At(cur));
      ancestorStamp := ancestorStamp[cur := ancestorGen];
      SetSlot(cur, fn(At(cur)));
      next := if cur == 0 || At(cur).parent == cur then None else Some(At(cur).parent);
    }

    /** An ancestor walk on a consistent tree. */
    method Walk(idx: nat, fn: Slot -> Slot)
      requires Ok() && OnlyTotals(fn)
      modifies this`overrides, this`entries, this`ancestorStamp, this`ancestorGen
      ensures Ok() && Kids() == old(Kids())
      ensures Slots() == Touch(old(Slots()), Chain(old(Slots()), idx), fn)
    {
      hide Climb, Chain, Overlay, RowOf, RowsFit, CachesFit;
      ghost var s := Slots();
      Ancestors(idx, fn);
      TouchKeepsAllLinks(s, Chain(s, idx), fn);
      LinksKeepAll(s, Slots(), fold, Kids(), childNames);
    }

    // -- Removal ---------------------------------------------------------------------

    /** Turns idx and everything below it into tombstones. */
    method Bury(idx: nat)
      requires Ok() && Live(idx)
      modifies this`overrides, this`entries, this`childNames
      ensures Ok() && Kids() == old(Kids())
      ensures Slots() == Buried(old(Slots()), idx)
    {
      hide Overlay, RowOf, RowsFit, CachesFit, Burying;
      ghost var s, rows := Slots(), Kids();
      ghost var gone: set<nat> := {};
      var stack := [idx];
      StartBurying(s, idx);
      while stack != []
        invariant Shaped() && NamesFit() && NodeCount() == |s| && Kids() == rows
        invariant Burying(s, Slots(), idx, gone, stack)
        decreases |s| - |gone|, |stack|
      {
        BuryingPersists(s, Slots(), rows, idx, gone, stack);
        var cur := stack[|stack| - 1];
        if !Live(cur) {
          PopDead(s, Slots(), idx, gone, stack);
          stack := stack[..|stack| - 1];
        } else {
          PopLive(s, Slots(), rows, idx, gone, stack);
          stack := stack[..|stack| - 1] + ChildList(cur);
          gone := gone + {cur};
          BuryOne(cur, s, rows, idx, gone, stack);
        }
      }
      BuriedAll(s, Slots(), idx, gone);
      BuryingPersists(s, Slots(), rows, idx, gone, stack);
    }

    method BuryOne(cur: nat, ghost s: Arena, ghost rows: Rows, ghost idx: nat, ghost gone: set<nat>, ghost stack: seq<nat>)
      requires Shaped() && NamesFit() && NodeCount() == |s| && Kids() == rows && Live(cur) && RowsFit(s, rows)
      requires Burying(s, Slots()[cur := At(cur).(used := false)], idx, gone, stack)
      requires RowsFit(Slots(), rows)
      modifies this`overrides, this`entries, this`childNames
      ensures Shaped() && NamesFit() && NodeCount() == |s| && Kids() == rows
      ensures Slots() == old(Slots())[cur := old(At(cur)).(used := false)]
      ensures |gone| <= |s|
    {
      hide Overlay, RowOf, RowsFit, Burying;
      ghost var t := Slots();
      SetSlot(cur, At(cur).(used := false));
      CachesPersist(t, Slots(), fold, rows, childNames);
      childNames := childNames - {cur};
      GoneBounded(s, Slots(), idx, gone, stack);
    }

    method RemoveSubtree(idx: nat, size: U64, files: U64)
      requires Ok()
      modifies this`overrides, this`entries, this`childNames, this`ancestorStamp, this`ancestorGen
      ensures Ok() && Kids() == old(Kids())
      ensures Slots() == if !Valid(old(Slots()), idx) then old(Slots())
                         else var t := Buried(old(Slots()), idx);
                              if idx == 0 then t else Touch(t, Chain(t, old(Slots())[idx].parent), SubTotals(size, files))
    {
      hide Climb, Chain, Overlay, RowOf, RowsFit, CachesFit, Shaped;
      if !Live(idx) {
        return;
      }
      var parent := At(idx).parent;
      Bury(idx);
      if idx != 0 {
        Walk(parent, SubTotals(size, files));
      }
    }

    /** Removal with the totals the node itself reports. */
    method RemoveSubtreeInplace(idx: nat)
      requires Ok()
      modifies this`overrides, this`entries, this`childNames, this`ancestorStamp, this`ancestorGen
      ensures Ok() && Kids() == old(Kids())
      ensures Slots() == if Valid(old(Slots()), idx) then Removed(old(Slots()), idx) else old(Slots())
    {
      if Live(idx) {
        RemoveSubtree(idx, At(idx).size, if At(idx).isDir then At(idx).files else 1);
      }
    }

    /** A slot's own totals and time, written outside any walk. */
    method Restate(i: nat, e: Slot)
      requires Ok() && i < NodeCount() && e == At(i).(size := e.size, files := e.files, mtime := e.mtime)
      modifies this`overrides, this`entries
      ensures Ok() && Slots() == old(Slots())[i := e]
    {
      hide Overlay, RowOf, RowsFit, CachesFit;
      ghost var s := Slots();
      SetSlot(i, e);
      assert SameLinks(s, Slots());
      LinksKeepAll(s, Slots(), fold, Kids(), childNames);
    }

    /** A tombstone after the base takes another name; no lookup can tell. */
    method RenameTombstone(i: nat, name: Name)
      requires Ok() && BaseCount() <= i < NodeCount() && !At(i).used
      modifies this`entries
      ensures Ok() && Slots() == old(Slots())[i := old(Slots())[i].(name := name)]
    {
      hide Overlay, RowOf, RowsFit, CachesFit;
      ghost var s, rows := Slots(), Kids();
      entries := entries[i - BaseCount() := At(i).(name := name)];
      assert Slots() == s[i := s[i].(name := name)];
      assert Kids() == rows;
      TombstoneNames(s, fold, rows, childNames, i, name);
    }

    // -- Upserts and grafts ---------------------------------------------------------------

    /** Appends a node without listing it anywhere yet. */
    method AppendNode(e: Slot)
      requires Shaped() && NamesFit() && NodeCount() < MAX_U32 && RowsFitTo(Slots(), Kids(), 0)
      modifies this`entries, this`children
      ensures Shaped() && NamesFit() && Slots() == old(Slots()) + [e] && Kids() == old(Kids()) + [[]]
    {
      ghost var s, rows := Slots(), Kids();
      entries := entries + [e];
      if base.None? {
        children := children + [[]];
      }
      assert Slots() == s + [e];
      assert Kids() == rows + [[]] by { NoEditsPastEnd(s, rows); }
      CachesExtend(s, Slots(), fold, rows, Kids(), childNames);
    }

    lemma NoEditsPastEnd(s: Arena, rows: Rows)
      requires Shaped() && NodeCount() == |s| + 1 && |rows| == |s|
      requires forall p :: p in childEdits ==> p < |s|
      requires base.Some? ==> |base.value.slots| <= |s|
      requires base.None? ==> children == rows + [[]]
      requires forall p :: 0 <= p < |s| ==> ChildList(p) == rows[p]
      ensures Kids() == rows + [[]]
    {
    }

    /** Lists the newest nodes, from `from` on, under their live directories. */
    method LinkFrom(from: nat)
      requires Shaped() && NamesFit() && from <= NodeCount() && RowsFitTo(Slots(), Kids(), from)
      modifies this`children, this`childEdits, this`childNames
      ensures Shaped() && NamesFit() && RowsFit(Slots(), Kids())
      ensures Slots() == old(Slots())
      ensures Kids() == RowsLinked(old(Slots()), old(Kids()), from, |old(Slots())|)
    {
      hide Overlay, RowOf, RowsFitTo, RowsFit, CachesFit;
      ghost var s, rows := Slots(), Kids();
      for i := from to NodeCount()
        invariant Shaped() && NamesFit() && Slots() == s
        invariant Kids() == RowsLinked(s, rows, from, i)
        invariant RowsFitTo(s, Kids(), i)
      {
        LinkRow(s, Kids(), i);
        EdgeAt(s, i);
        var e := At(i);
        if e.used && e.parent != i && LiveDir(e.parent) && i != 0 {
          Link(e.parent, i);
        }
      }
      RowsFitAll(s, Kids(), |s|);
    }

    /** Replaces a file's size, or appends a file where nothing or something else was. */
    method UpsertFileWithMtime(path: seq<Name>, size: U64, mtime: U64) returns (ok: bool)
      requires Ok() && WellFormed(Slots()) && NodeCount() < MAX_U32
      modifies this`overrides, this`entries, this`children, this`childEdits, this`childNames, this`ancestorStamp, this`ancestorGen
      ensures Ok() && Kids() == LinkedOn(Slots(), old(Kids()))
      ensures ok == UpsertTarget(old(Slots()), old(Kids()), fold, path).Some?
      ensures !ok ==> Slots() == old(Slots())
      ensures ok ==> Slots() == Upserted(old(Slots()), UpsertTarget(old(Slots()), old(Kids()), fold, path).value,
                                         Resolve(old(Slots()), old(Kids()), fold, path), path[|path| - 1], size, mtime)
    {
      hide Overlay, RowOf, RowsFit, CachesFit, Shaped, Climb, Touch, Chain, WellFormed, Resolve;
      if path == [] {
        return false;
      }
      var n := |path| - 1;
      var parent := FindNodeByPath(path[..n]);
      if parent.None? || !LiveDir(parent.value) || path[n] == DOT {
        return false;
      }
      var found := FindNodeByPath(path);
      ok := true;
      ghost var s := Slots();
      if found.Some? {
        FoundUnderParent(s, Kids(), fold, path);
        if !LiveDir(found.value) && At(found.value).name == path[n] {
          Resize(found.value, size, mtime);
          return;
        }
        SurvivorStays(s, Kids(), fold, path, parent.value);
        RemoveSubtreeInplace(found.value);
      }
      AddFile(parent.value, path[n], size, mtime);
    }

    method Resize(idx: nat, size: U64, mtime: U64)
      requires Ok() && Valid(Slots(), idx) && !IsDir(Slots(), idx)
      modifies this`overrides, this`entries, this`ancestorStamp, this`ancestorGen
      ensures Ok() && Kids() == old(Kids()) && Slots() == WithSize(old(Slots()), idx, size, mtime)
    {
      hide Overlay, RowOf, RowsFit, CachesFit, Climb, Touch, Chain;
      ghost var s := Slots();
      var e := At(idx);
      SetSlot(idx, e.(size := size, mtime := mtime));
      assert SameLinks(s, Slots());
      LinksKeepAll(s, Slots(), fold, Kids(), childNames);
      Walk(e.parent, SwapSize(e.size, size));
    }

    method AddFile(parent: nat, name: Name, size: U64, mtime: U64)
      requires Ok() && LiveDir(parent) && WellFormed(Slots()) && NodeCount() < MAX_U32
      modifies this`overrides, this`entries, this`children, this`childEdits, this`childNames, this`ancestorStamp, this`ancestorGen
      ensures Ok() && Kids() == LinkedOn(Slots(), old(Kids()))
      ensures Slots() == WithLeaf(old(Slots()), Slot(parent, name, false, size, true, mtime, 0))
    {
      hide Overlay, RowOf, RowsFit, RowsFitTo, CachesFit, Climb, Touch, Chain, WellFormed, RowsLinked;
      ghost var s, rows := Slots(), Kids();
      var leaf := Slot(parent, name, false, size, true, mtime, 0);
      RowsFitStart(s, rows);
      AppendNode(leaf);
      LeafExtends(s, leaf);
      RowsExtend(s, Slots(), rows, Kids());
      LinkedLeaf(Slots(), rows);
      LinkFrom(NodeCount() - 1);
      ghost var linked := Slots();
      Walk(parent, AddTotals(size, 1));
      TouchKeepsAllLinks(linked, Chain(linked, parent), AddTotals(size, 1));
      LinkedBeforeWalk(linked, Slots(), rows);
    }

    /** Copies another tree's live nodes under a directory, in slot order, and takes over its coverage gaps. */
    method AppendSubtree(parent: nat, subtree: SizeTree, rootName: Name)
      requires Ok() && WellFormed(Slots())
      requires subtree.Ok() && WellFormed(subtree.Slots()) && NodeCount() + subtree.NodeCount() <= MAX_U32
      modifies this
      ensures Ok() && base == old(base) && extraParents == old(extraParents)
      ensures Slots() == if !IsDir(old(Slots()), parent) || subtree == this then old(Slots())
                         else Grafted(old(Slots()), old(subtree.Slots()), parent, rootName)
      ensures Kids() == LinkedOn(Slots(), old(Kids()))
      ensures blocked == old(blocked) + if !IsDir(old(Slots()), parent) || subtree == this then []
                                        else HandedOn(NewRoot(Slots(), mount, parent, rootName), subtree.mount, old(subtree.blocked))
    {
      hide Overlay, RowOf, RowsFit, CachesFit, WellFormed, Shaped, Grafted, NewRoot, HandedOn, LinkedOn;
      if !LiveDir(parent) || subtree == this {
        NothingLinkedOn(Slots(), Kids());
        return;
      }
      Graft(parent, subtree, rootName);
      AppendCoverage(parent, rootName, subtree.mount, subtree.blocked);
    }

    /** The slots and rows of a graft. */
    method Graft(parent: nat, subtree: SizeTree, rootName: Name)
      requires Ok() && WellFormed(Slots()) && LiveDir(parent) && subtree != this
      requires subtree.Ok() && WellFormed(subtree.Slots()) && NodeCount() + subtree.NodeCount() <= MAX_U32
      modifies this`overrides, this`entries, this`children, this`childEdits, this`childNames, this`ancestorStamp, this`ancestorGen
      ensures Ok() && IsDir(old(Slots()), parent)
      ensures Slots() == Grafted(old(Slots()), old(subtree.Slots()), parent, rootName)
      ensures Kids() == LinkedOn(Slots(), old(Kids()))
    {
      hide Overlay, RowOf, RowsFit, RowsFitTo, CachesFit, Climb, Touch, Chain, WellFormed, RowsLinked, Shaped, LinkedOn, Joined;
      ghost var rows, u := Kids(), subtree.Slots();
      RootIsDir(u);
      var start := NodeCount();
      CopyOnto(parent, subtree, rootName);
      ghost var linked := Slots();
      LinkFrom(start);
      Walk(parent, AddTotals(subtree.At(0).size, subtree.At(0).files));
      CreditedRows(linked, Slots(), rows, Kids(), parent, u[0].size, u[0].files);
    }

    /** The copies of a graft, not yet listed anywhere. */
    method CopyOnto(parent: nat, subtree: SizeTree, rootName: Name)
      requires Ok() && WellFormed(Slots()) && LiveDir(parent) && subtree != this
      requires subtree.Ok() && WellFormed(subtree.Slots()) && NodeCount() + subtree.NodeCount() <= MAX_U32
      modifies this`entries, this`children
      ensures Shaped() && NamesFit() && RowsFitTo(Slots(), Kids(), old(NodeCount()))
      ensures old(NodeCount()) <= NodeCount() && Slots() == Joined(old(Slots()), old(subtree.Slots()), parent, rootName)
      ensures Kids() == old(Kids()) + seq(|Slots()| - old(NodeCount()), i => [])
    {
      hide Overlay, RowOf, RowsFit, RowsFitTo, CachesFit, WellFormed, Shaped, LiveIds, Rank, MapsLive;
      ghost var s, rows, u := Slots(), Kids(), subtree.Slots();
      var start := NodeCount();
      RowsFitStart(s, rows);
      var mapping := MapLive(subtree, start);
      CopyLive(subtree, mapping, start, parent, rootName);
      JoinedEdges(s, u, parent, rootName);
      RowsExtend(s, Slots(), rows, Kids());
    }

    /** The path of a node: its ancestors' names, read upwards and joined downwards. */
    method FindPath(idx: nat) returns (r: Option<seq<Name>>)
      ensures r == PathOf(Slots(), idx)
    {
      if !Live(idx) {
        return None;
      }
      ghost var s := Slots();
      var chain: seq<nat>, cur: nat, depth: nat := [], idx, 0;
      while depth <= 512 && cur != 0
        invariant depth <= PATH_LIMIT && forall k :: 0 <= k < |chain| ==> chain[k] < |s|
        invariant PathOf(s, idx) == Descended(s, PathFrom(s, cur, PATH_LIMIT - depth), chain)
        decreases PATH_LIMIT - depth
      {
        DescendedNowhere(s, chain);
        if !Live(cur) || At(cur).parent == cur {
          return None;
        }
        DescendedFurther(s, PathFrom(s, At(cur).parent, PATH_LIMIT - depth - 1), chain, cur);
        chain := chain + [cur];
        cur, depth := At(cur).parent, depth + 1;
      }
      DescendedNowhere(s, chain);
      if cur != 0 || depth == PATH_LIMIT {
        return None;
      }
      r := Some([]);
      var i: nat := |chain|;
      while i > 0
        invariant i <= |chain| && r == Descended(s, Some([]), chain[i..])
      {
        i := i - 1;
        assert chain[i..][1..] == chain[i + 1..];
        r := Entered(r, At(chain[i]).name);
        if r.None? {
          SomeNameUnsafe(s, chain, i);
          return;
        }
      }
      assert chain[0..] == chain;
    }

    /** Moves the gaps of a grafted scan to its new place. */
    method AppendCoverage(parent: nat, rootName: Name, from: seq<Name>, gaps: seq<Place>)
      modifies this`blocked
      ensures Ok() == old(Ok()) && Slots() == old(Slots()) && Kids() == old(Kids())
      ensures blocked == old(blocked) + HandedOn(NewRoot(Slots(), mount, parent, rootName), from, gaps)
    {
      hide PathOf, Shaped, RowsFit, CachesFit, Overlay, RowOf;
      var path := FindPath(parent);
      var root := if path.Some? then Place(true, mount + path.value + [rootName]) else Place(false, [rootName]);
      for i := 0 to |gaps|
        invariant blocked == old(blocked) + HandedOn(root, from, gaps[..i])
      {
        assert gaps[..i + 1][..i] == gaps[..i];
        if gaps[i].rooted && from <= gaps[i].names {
          blocked := blocked + [root.(names := root.names + gaps[i].names[|from|..])];
        }
      }
      assert gaps[..|gaps|] == gaps;
    }

    /** Replaces the coverage gaps. */
    method SetBlockedSubtrees(gaps: seq<Place>)
      modifies this`blocked
      ensures Ok() == old(Ok()) && Slots() == old(Slots()) && Kids() == old(Kids()) && blocked == gaps
    {
      blocked := gaps;
    }

    /** Where each live node of the subtree will land. */
    method MapLive(subtree: SizeTree, start: nat) returns (mapping: map<nat, nat>)
      requires subtree.Shaped()
      ensures MapsLive(subtree.Slots(), mapping, start, subtree.NodeCount())
    {
      hide Overlay, Shaped, Rank;
      mapping := map[];
      ghost var u := subtree.Slots();
      RankStarts(u);
      var next := start;
      for old_ := 0 to subtree.NodeCount()
        invariant next == start + Rank(u, old_) && MapsLive(u, mapping, start, old_)
      {
        RankSteps(u, old_);
        if subtree.At(old_).used {
          mapping := mapping[old_ := next];
          next := next + 1;
        }
      }
    }

    method CopyLive(subtree: SizeTree, mapping: map<nat, nat>, start: nat, parent: nat, rootName: Name)
      requires Shaped() && NamesFit() && subtree.Shaped() && subtree != this && parent < NodeCount() == start
      requires start + subtree.NodeCount() <= MAX_U32 && RowsFitTo(Slots(), Kids(), 0)
      requires MapsLive(subtree.Slots(), mapping, start, subtree.NodeCount())
      modifies this`entries, this`children
      ensures Shaped() && NamesFit()
      ensures Slots() == Joined(old(Slots()), subtree.Slots(), parent, rootName)
      ensures Kids() == old(Kids()) + seq(|Slots()| - start, i => [])
    {
      hide Overlay, RowOf, RowsFitTo, CachesFit, Shaped, Rank, MapsLive, Moved, LiveIds;
      ghost var s, rows, u := Slots(), Kids(), subtree.Slots();
      ghost var copies := Copies(u, start, parent, rootName);
      RankStarts(u);
      for old_ := 0 to subtree.NodeCount()
        invariant Shaped() && NamesFit() && subtree.Slots() == u
        invariant Rank(u, old_) <= |copies| && Slots() == s + copies[..Rank(u, old_)]
        invariant Kids() == rows + seq(Rank(u, old_), i => [])
        invariant RowsFitTo(Slots(), Kids(), 0)
      {
        var e := subtree.At(old_);
        CopyNext(u, start, parent, rootName, old_);
        if e.used {
          MovesAlike(u, mapping, start, parent, rootName, old_);
          ghost var t, r := Slots(), Kids();
          AppendNode(MovedBy(e, old_, mapping, parent, rootName));
          PaddedRowsFit(t, r, copies[Rank(u, old_)]);
        }
      }
    }

    // -- Totals from scratch ---------------------------------------------------------

    /** Directory totals back to zero. */
    method ZeroDirs()
      requires base.None?
      modifies this`entries
      ensures entries == Zeroed(old(entries), |old(entries)|)
    {
      ghost var s := entries;
      for i := 0 to |entries|
        invariant |entries| == |s| && entries == Zeroed(s, i)
      {
        if entries[i].isDir {
          entries := entries[i := entries[i].(size := 0, files := 0)];
        }
      }
    }

    /** Files add to their directory, and directories are counted against theirs. */
    method AddFiles(ghost s: Arena) returns (pending: seq<nat>)
      requires base.None? && |entries| == |s| && Rolled(s, entries, {})
      modifies this`entries
      ensures |entries| == |s| == |pending|
      ensures Rolled(s, entries, NonDirs(s, |s|)) && CountsUpTo(s, pending, |s|)
    {
      hide Rolled, CountsUpTo;
      pending := seq(|entries|, i => 0);
      assert NonDirs(s, 0) == {};
      StartCounts(s, pending);
      for i := 0 to |entries|
        invariant |entries| == |s| == |pending| && Rolled(s, entries, NonDirs(s, i)) && CountsUpTo(s, pending, i)
      {
        FilePass(s, entries, i);
        CountStep(s, pending, i);
        var edge := HeapEdge(entries, i);
        if edge.Some? {
          var p := edge.value;
          if entries[i].isDir {
            pending := pending[p := pending[p] + 1];
          } else {
            entries := Credit(entries, p, entries[i].size, 1);
          }
        }
      }
    }

    /** Drains every directory that has nothing left to wait for. */
    method Drain(pending0: seq<nat>, ghost s: Arena)
      requires base.None? && |entries| == |s| == |pending0|
      requires Rolled(s, entries, NonDirs(s, |s|)) && CountsUpTo(s, pending0, |s|)
      modifies this`entries
      ensures entries == RollUp(s)
    {
      hide Rolled, CountsUpTo, WorkOk, Distinct;
      var pending := pending0;
      var ready := CollectReady(pending);
      ghost var done: set<nat> := NonDirs(s, |s|);
      StartWork(s, entries, pending);
      while ready != []
        invariant WorkOk(s, Work(entries, pending, ready), done)
        decreases |s| - |done|
      {
        ghost var k := Work(entries, pending, ready);
        PopBasics(s, k, done);
        PopKeepsInvariant(s, k, done);
        DrainedGrows(s, k, done);
        var d := ready[|ready| - 1];
        ready := ready[..|ready| - 1];
        done := done + {d};
        var edge := HeapEdge(entries, d);
        if edge.Some? {
          var p := edge.value;
          entries := Credit(entries, p, entries[d].size, entries[d].files);
          pending := pending[p := if pending[p] > 0 then pending[p] - 1 else 0];
          if pending[p] == 0 {
            ready := ready + [p];
          }
        }
      }
      WorkDone(s, Work(entries, pending, ready), done);
    }

    method CollectReady(pending: seq<nat>) returns (ready: seq<nat>)
      requires base.None? && |pending| == |entries|
      ensures ready == Idle(entries, pending, |entries|)
    {
      ready := [];
      for i := 0 to |entries|
        invariant ready == Idle(entries, pending, i)
      {
        if entries[i].used && entries[i].isDir && pending[i] == 0 {
          ready := ready + [i];
        }
      }
    }

    /** Totals of a heap tree from scratch: the worklist, then the extra hard-link parents. */
    method RecomputeHeapAggregates()
      requires Ok() && base.None?
      modifies this`overrides, this`entries, this`ancestorStamp, this`ancestorGen
      ensures Ok()
      ensures Slots() == AddAllLinks(RollUp(old(Slots())), extraParents, |old(Slots())|)
    {
      hide RowOf, RowsFit, CachesFit, Climb, Chain, Rolled, CountsUpTo, AddAllLinks;
      ghost var s := Slots();
      assert entries == s;
      ZeroDirs();
      ZeroedIsRolled(s);
      var pending := AddFiles(s);
      Drain(pending, s);
      assert Slots() == entries;
      RollUpKeepsLinks(s);
      LinksKeepAll(s, Slots(), fold, Kids(), childNames);
      AddExtraParents(RollUp(s));
    }

    method AddExtraParents(ghost s: Arena)
      requires Ok() && base.None? && Slots() == s
      modifies this`overrides, this`entries, this`ancestorStamp, this`ancestorGen
      ensures Ok() && Slots() == AddAllLinks(s, extraParents, |s|)
    {
      hide Overlay, RowOf, RowsFit, CachesFit, Climb, Chain, Shaped, Touch, AddLinks;
      for i := 0 to NodeCount()
        invariant Ok() && NodeCount() == |s| && Slots() == AddAllLinks(s, extraParents, i)
      {
        if At(i).used && !At(i).isDir {
          AddExtrasOf(i, ExtrasOf(extraParents, i));
        }
      }
    }

    method AddExtrasOf(i: nat, parents: seq<nat>)
      requires Ok() && i < |Slots()|
      modifies this`overrides, this`entries, this`ancestorStamp, this`ancestorGen
      ensures Ok() && NodeCount() == old(NodeCount()) && Slots() == AddLinks(old(Slots()), i, parents)
    {
      hide Overlay, RowOf, RowsFit, CachesFit, Climb, Chain, Shaped, Touch;
      ghost var t := Slots();
      for j := 0 to |parents|
        invariant Ok() && NodeCount() == old(NodeCount()) && Slots() == AddLinks(t, i, parents[..j])
      {
        assert parents[..j + 1][..j] == parents[..j];
        if parents[j] != At(i).parent && Live(parents[j]) {
          Walk(parents[j], AddTotals(At(i).size, 1));
        }
      }
      assert parents[..|parents|] == parents;
    }

    /** Totals from scratch: per-file walks over a mapped base, the roll-up on the heap. */
    method RecomputeAggregates()
      requires Ok()
      modifies this`overrides, this`entries, this`ancestorStamp, this`ancestorGen
      ensures Ok()
      ensures Slots() == if base.None? then AddAllLinks(RollUp(old(Slots())), extraParents, |old(Slots())|)
                         else WalkAll(Zeroed(old(Slots()), |old(Slots())|), extraParents, |old(Slots())|)
    {
      hide Overlay, RowOf, RowsFit, CachesFit, Climb, Chain, Shaped, Touch, Zeroed, WalkAll;
      if base.None? {
        RecomputeHeapAggregates();
        return;
      }
      ghost var s := Slots();
      ZeroAllDirs();
      WalkFiles(Slots());
    }

    method ZeroAllDirs()
      requires Ok()
      modifies this`overrides, this`entries
      ensures Ok() && Slots() == Zeroed(old(Slots()), |old(Slots())|)
    {
      hide Overlay, RowOf, RowsFit, CachesFit, Shaped;
      ghost var s := Slots();
      for i := 0 to NodeCount()
        invariant Shaped() && NodeCount() == |s| && Slots() == Zeroed(s, i)
      {
        var e := At(i);
        if e.isDir {
          SetSlot(i, e.(size := 0, files := 0));
        }
      }
      LinksKeepAll(s, Slots(), fold, Kids(), childNames);
    }

    method WalkFiles(ghost z: Arena)
      requires Ok() && Slots() == z
      modifies this`overrides, this`entries, this`ancestorStamp, this`ancestorGen
      ensures Ok() && Slots() == WalkAll(z, extraParents, |z|)
    {
      hide Ok, WalkFile;
      for i := 0 to NodeCount()
        invariant Ok() && NodeCount() == |z| && Slots() == WalkAll(z, extraParents, i)
      {
        WalkOne(i);
      }
    }

    method WalkOne(i: nat)
      requires Ok() && i < NodeCount()
      modifies this`overrides, this`entries, this`ancestorStamp, this`ancestorGen
      ensures Ok() && Slots() == WalkFile(old(Slots()), i, ExtrasOf(extraParents, i))
    {
      hide Overlay, RowOf, RowsFit, CachesFit, Climb, Chain, Shaped, Touch, WalkLinks;
      var e := At(i);
      if e.used && !e.isDir {
        Walk(e.parent, AddTotals(e.size, 1));
        WalkExtras(e, ExtrasOf(extraParents, i));
      }
    }

    method WalkExtras(e: Slot, parents: seq<nat>)
      requires Ok()
      modifies this`overrides, this`entries, this`ancestorStamp, this`ancestorGen
      ensures Ok() && Slots() == WalkLinks(old(Slots()), e.parent, e.size, parents)
    {
      hide Overlay, RowOf, RowsFit, CachesFit, Climb, Chain, Shaped, Touch;
      ghost var w := Slots();
      for j := 0 to |parents|
        invariant Ok() && Slots() == WalkLinks(w, e.parent, e.size, parents[..j])
      {
        assert parents[..j + 1][..j] == parents[..j];
        if parents[j] != e.parent && Live(parents[j]) {
          Walk(parents[j], AddTotals(e.size, 1));
        }
      }
      assert parents[..|parents|] == parents;
    }

    /** Records a hard-link parent besides the selected one, once. */
    method NoteExtraParent(file: nat, parent: nat)
      modifies this`extraParents
      ensures extraParents == if Valid(Slots(), file) && Valid(Slots(), parent) && Slots()[file].parent != parent && !Slots()[file].isDir
                                   && parent !in ExtrasOf(old(extraParents), file)
                              then old(extraParents)[file := ExtrasOf(old(extraParents), file) + [parent]] else old(extraParents)
    {
      if !Live(file) || !Live(parent) || At(file).parent == parent || At(file).isDir || parent in ExtrasOf(extraParents, file) {
        return;
      }
      extraParents := extraParents[file := ExtrasOf(extraParents, file) + [parent]];
    }

    // -- Child rows from scratch, counts and copies ------------------------------------------

    /** Child lists rebuilt from parent links; nothing is memoised afterwards. */
    method RebuildChildArrays()
      requires Shaped() && (base.Some? ==> WellFormed(Slots()))
      modifies this`children, this`childEdits, this`childNames
      ensures Shaped() && NamesFit() && RowsFit(Slots(), Kids()) && Slots() == old(Slots())
      ensures Kids() == RowsLinked(Slots(), BareRows(base, |Slots()|), BaseCount(), |Slots()|)
    {
      hide Overlay, RowOf, RowsFit, WellFormed;
      childNames := map[];
      if base.Some? {
        childEdits := map[];
      } else {
        children := seq(|entries|, i => []);
      }
      BareRowsAre();
      BareRowsFit(base, overrides, entries);
      LinkFrom(BaseCount());
    }

    constructor Bare(fold: Fold, mount: seq<Name>, slots: Arena)
      requires |slots| <= MAX_U32
      ensures Shaped() && StampsFit() && base.None? && extraParents == map[] && this.fold == fold && this.mount == mount && blocked == []
      ensures Slots() == slots
    {
      this.fold, this.mount, blocked := fold, mount, [];
      base, overrides, childEdits, childNames, extraParents := None, map[], map[], map[], map[];
      entries, children := slots, seq(|slots|, i => []);
      ancestorStamp, ancestorGen := [], 0;
      new;
      assert Slots() == slots;
    }

    /** A loaded tree keeps its validated file as the base. */
    constructor FromBase(fold: Fold, mount: seq<Name>, b: MappedBase)
      requires |b.slots| <= MAX_U32 && WellFormed(b.slots) && RowsFit(b.slots, b.rows)
      requires forall i :: 0 <= i < |b.slots| ==> b.slots[i].used
      requires b.files == CountKind(b.slots, false) && b.dirs == CountKind(b.slots, true)
      ensures Ok() && base == Some(b) && Slots() == b.slots && Kids() == b.rows && this.fold == fold && this.mount == mount && blocked == []
    {
      this.fold, this.mount, blocked := fold, mount, [];
      base, overrides, entries, children := Some(b), map[], [], [];
      childEdits, childNames, extraParents := map[], map[], map[];
      ancestorStamp, ancestorGen := [], 0;
      new;
      assert Slots() == b.slots;
      assert Kids() == b.rows;
    }

    /** A private copy: the same nodes, sharing nothing that is ever written. */
    method Clone() returns (copy: SizeTree)
      requires Ok() && (base.Some? ==> WellFormed(Slots()))
      ensures fresh(copy) && copy.Ok() && copy.fold == fold && copy.base == base && copy.mount == mount && copy.blocked == blocked
      ensures copy.Slots() == Slots() && copy.extraParents == extraParents
      ensures base.Some? ==> copy.Kids() == Kids()
      ensures base.None? ==> copy.Kids() == RowsLinked(Slots(), BareRows(None, |Slots()|), 0, |Slots()|)
    {
      copy := new SizeTree.CopyOf(this);
      if base.None? {
        copy.RebuildChildArrays();
      }
    }

    constructor CopyOf(t: SizeTree)
      requires t.Shaped() && RowsFit(t.Slots(), t.Kids())
      ensures Shaped() && NamesFit() && StampsFit() && fold == t.fold && base == t.base && extraParents == t.extraParents
      ensures mount == t.mount && blocked == t.blocked
      ensures Slots() == t.Slots() && Kids() == t.Kids() && childNames == map[]
    {
      fold, mount, blocked := t.fold, t.mount, t.blocked;
      base, overrides, entries, children, childEdits := t.base, t.overrides, t.entries, t.children, t.childEdits;
      childNames, extraParents := map[], t.extraParents;
      ancestorStamp, ancestorGen := [], 0;
    }

    /** Live directories, or live files: the base's checked count corrected by the overlays. */
    method CountUsed(directory: bool) returns (n: nat)
      requires Shaped()
      ensures n == CountKind(Slots(), directory)
    {
      hide WellFormed, RowsFit, CountKind;
      n := if base.None? then 0 else if directory then base.value.dirs else base.value.files;
      NoOverrides(base, directory);
      if base.Some? {
        n := CountOverrides(base.value, n, directory);
      }
      n := CountEntries(Overlay(base, overrides), n, directory);
    }

    method CountOverrides(b: MappedBase, n0: nat, directory: bool) returns (n: nat)
      requires base == Some(b) && n0 == CountKind(b.slots, directory)
      requires forall i :: i in overrides ==> i < |b.slots|
      ensures n == CountKind(Overlay(base, overrides), directory)
    {
      hide CountKind;
      NoOverrides(base, directory);
      n := n0;
      var left := overrides.Keys;
      ghost var seen: map<nat, Slot> := map[];
      while left != {}
        invariant left <= overrides.Keys && seen == overrides - left
        invariant n == CountKind(Overlay(base, seen), directory)
        decreases left
      {
        var idx :| idx in left;
        CountOverride(base, seen, idx, overrides[idx], directory);
        if b.slots[idx].used && b.slots[idx].isDir == directory {
          n := n - 1;
        }
        if overrides[idx].used && overrides[idx].isDir == directory {
          n := n + 1;
        }
        left := left - {idx};
        seen := seen[idx := overrides[idx]];
      }
      assert seen == overrides;
    }

    method CountEntries(ghost before: Arena, n0: nat, directory: bool) returns (n: nat)
      requires n0 == CountKind(before, directory)
      ensures n == CountKind(before + entries, directory)
    {
      hide CountKind;
      n := n0;
      assert before + entries[..0] == before;
      for i := 0 to |entries|
        invariant n == CountKind(before + entries[..i], directory)
      {
        CountAppend(before + entries[..i], entries[i], directory);
        assert before + entries[..i] + [entries[i]] == before + entries[..i + 1];
        if entries[i].used && entries[i].isDir == directory {
          n := n + 1;
        }
      }
      assert entries[..|entries|] == entries;
    }

    lemma BareRowsAre()
      requires Shaped() && childEdits == map[]
      requires base.None? ==> children == seq(|entries|, i => [])
      ensures Kids() == BareRows(base, NodeCount())
    {
    }
  }

  const DOT: Name := [46]

  /** The rows after listing nodes from..n under their edges. */
  function RowsLinked(s: Arena, rows: Rows, from: nat, n: nat): (r: Rows)
    requires |rows| == |s| && from <= n <= |s|
    ensures |r| == |s|
    decreases n
  {
    if n == from then rows else
      var r := RowsLinked(s, rows, from, n - 1);
      match HeapEdge(s, n - 1)
      case None => r
      case Some(p) => r[p := r[p] + [n - 1]]
  }

  /** The rows once the nodes after those listed are linked, in slot order. */
  function LinkedOn(t: Arena, rows: Rows): (r: Rows)
  {
    if |t| <= |rows| then rows else RowsLinked(t, rows + seq(|t| - |rows|, i => []), |rows|, |t|)
  }

  lemma {:induction false} SameEdgesSameRows(s: Arena, t: Arena, rows: Rows, from: nat, n: nat)
    requires |rows| == |s| == |t| && from <= n <= |s| && Edges(s) == Edges(t)
    ensures RowsLinked(s, rows, from, n) == RowsLinked(t, rows, from, n)
  {
    if n > from {
      SameEdgesSameRows(s, t, rows, from, n - 1);
      assert Edges(s)[n - 1] == HeapEdge(s, n - 1) && Edges(t)[n - 1] == HeapEdge(t, n - 1);
    }
  }

  /** Crediting totals after linking leaves the rows those of the new slots. */
  lemma LinkedBeforeWalk(s: Arena, t: Arena, rows: Rows)
    requires |s| == |t| && SameLinks(s, t)
    ensures LinkedOn(t, rows) == LinkedOn(s, rows)
  {
    assert Edges(s) == Edges(t);
    if |rows| < |s| { SameEdgesSameRows(s, t, rows + seq(|s| - |rows|, i => []), |rows|, |s|); }
  }

  lemma {:induction false} CreditedRows(linked: Arena, t: Arena, rows: Rows, now: Rows, parent: nat, size: U64, files: U64)
    requires t == Touch(linked, Chain(linked, parent), AddTotals(size, files)) && |rows| <= |linked|
    requires now == RowsLinked(linked, rows + seq(|linked| - |rows|, i => []), |rows|, |linked|)
    ensures now == LinkedOn(t, rows)
  {
    hide Touch, Chain, RowsLinked;
    TouchKeepsAllLinks(linked, Chain(linked, parent), AddTotals(size, files));
    LinkedBeforeWalk(linked, t, rows);
    if |rows| == |linked| { NothingAdded(linked, rows); }
  }

  lemma {:induction false} NothingAdded(t: Arena, rows: Rows)
    requires |rows| == |t|
    ensures RowsLinked(t, rows + seq(|t| - |rows|, i => []), |rows|, |t|) == rows
  {
    assert rows + seq(|t| - |rows|, i => []) == rows;
  }

  lemma NothingLinkedOn(t: Arena, rows: Rows)
    requires |t| == |rows|
    ensures LinkedOn(t, rows) == rows
  {
  }

  lemma {:induction false} LinkedLeaf(t: Arena, rows: Rows)
    requires |t| == |rows| + 1
    ensures LinkedOn(t, rows) == RowsLinked(t, rows + [[]], |rows|, |t|)
  {
    assert seq<seq<nat>>(1, i => []) == [[]];
  }

  lemma EdgeAt(s: Arena, i: nat)
    requires i < |s|
    ensures var e := s[i];
            HeapEdge(s, i) == if e.used && e.parent != i && IsDir(s, e.parent) && i != 0 then Some(e.parent) else None
  {
  }

  lemma RowsFitStart(s: Arena, rows: Rows)
    requires RowsFit(s, rows)
    ensures RowsFitTo(s, rows, |rows|) && RowsFitTo(s, rows, 0)
  {
  }

  /** The directory an upsert writes under: it must exist and the last component must be a name. */
  function UpsertTarget(s: Arena, rows: Rows, fold: Fold, path: seq<Name>): (r: Option<nat>)
    requires |rows| == |s|
  {
    if path == [] || path[|path| - 1] == DOT then None else
      var r := Resolve(s, rows, fold, path[..|path| - 1]);
      if r.Some? && IsDir(s, r.value) then r else None
  }

  /** The slots after an upsert under p, given what the path named before. */
  ghost function Upserted(s: Arena, p: nat, found: Option<nat>, name: Name, size: U64, mtime: U64): Arena
    requires found.Some? ==> Valid(s, found.value)
    requires p < MAX_U32
  {
    if found.Some? && !s[found.value].isDir && s[found.value].name == name then WithSize(s, found.value, size, mtime)
    else WithLeaf(if found.Some? then Removed(s, found.value) else s, Slot(p, name, false, size, true, mtime, 0))
  }

  /** What a non-empty path names hangs under what its directory names. */
  lemma {:induction false} FoundUnderParent(s: Arena, rows: Rows, fold: Fold, path: seq<Name>)
    requires WellFormed(s) && RowsFit(s, rows) && path != [] && Resolve(s, rows, fold, path).Some?
    ensures var i := Resolve(s, rows, fold, path).value;
            i != 0 && Resolve(s, rows, fold, path[..|path| - 1]) == Some(s[i].parent as nat)
  {
    ResolvedDepth(s, rows, fold, path);
  }

  /** Removing a found child leaves its directory alive and the tree well formed. */
  lemma {:induction false} SurvivorStays(s: Arena, rows: Rows, fold: Fold, path: seq<Name>, p: nat)
    requires WellFormed(s) && RowsFit(s, rows) && path != [] && Resolve(s, rows, fold, path).Some?
    requires Resolve(s, rows, fold, path[..|path| - 1]) == Some(p)
    ensures var i := Resolve(s, rows, fold, path).value; IsDir(Removed(s, i), p) && WellFormed(Removed(s, i)) && |Removed(s, i)| == |s|
  {
    FoundUnderParent(s, rows, fold, path);
    RemovedWellFormed(s, Resolve(s, rows, fold, path).value);
  }

  /** mapping sends exactly the live nodes among the first n to where they will land. */
  ghost predicate MapsLive(u: Arena, mapping: map<nat, nat>, start: nat, n: nat)
  {
    && n <= |u|
    && (forall i :: i in mapping <==> i < n && Valid(u, i))
    && (forall i :: i in mapping ==> i < |u| && mapping[i] == start + Rank(u, i))
  }

  /** The copy of slot e, parents looked up in the mapping. */
  function MovedBy(e: Slot, i: nat, mapping: map<nat, nat>, p: U32, rootName: Name): Slot
    requires forall k :: k in mapping ==> mapping[k] <= MAX_U32
  {
    if i == 0 then e.(parent := p, name := rootName)
    else if e.parent in mapping then e.(parent := mapping[e.parent])
    else e.(parent := p, used := false)
  }

  lemma MovesAlike(u: Arena, mapping: map<nat, nat>, start: nat, p: U32, rootName: Name, i: nat)
    requires MapsLive(u, mapping, start, |u|) && start + |u| <= MAX_U32 && i < |u|
    ensures forall k :: k in mapping ==> mapping[k] <= MAX_U32
    ensures MovedBy(u[i], i, mapping, p, rootName) == Moved(u, start, p, rootName, i)
  {
  }

  lemma {:induction false} RankStarts(u: Arena)
    ensures Rank(u, 0) == 0
  {
  }

  lemma {:induction false} RankSteps(u: Arena, i: nat)
    requires i < |u|
    ensures Rank(u, i + 1) == Rank(u, i) + (if u[i].used then 1 else 0)
  {
  }

  lemma RootIsDir(u: Arena)
    requires WellFormed(u)
    ensures |u| > 0 && u[0].isDir
  {
  }

  lemma PaddedRowsFit(t: Arena, r: Rows, e: Slot)
    requires RowsFitTo(t, r, 0)
    ensures RowsFitTo(t + [e], r + [[]], 0)
  {
    forall p: nat, k: nat {:trigger k in (r + [[]])[p]} | p < |t + [e]| && k in (r + [[]])[p]
      ensures 0 < k < |t + [e]| && (t + [e])[k].parent == p
      ensures (t + [e])[k].used && (t + [e])[p].used ==> HeapEdge(t + [e], k) == Some(p)
    {
      assert p < |t| && k in r[p];
      assert k < |t| && t[k] == (t + [e])[k] && t[p] == (t + [e])[p];
    }
  }

  /** The next copy to append, if node i is live. */
  lemma {:induction false} CopyNext(u: Arena, start: nat, p: U32, rootName: Name, i: nat)
    requires start + |u| <= MAX_U32 && i < |u|
    ensures Rank(u, i) <= Rank(u, i + 1) <= Rank(u, |u|)
    ensures u[i].used ==> Rank(u, i) < Rank(u, |u|) && Rank(u, i + 1) == Rank(u, i) + 1
    ensures u[i].used ==> Copies(u, start, p, rootName)[Rank(u, i)] == Moved(u, start, p, rootName, i)
    ensures !u[i].used ==> Rank(u, i + 1) == Rank(u, i)
  {
    RankWeaklyMonotone(u, i + 1, |u|);
    if u[i].used { LiveIdOfRank(u, |u|, i); }
  }

  lemma {:induction false} RankWeaklyMonotone(u: Arena, i: nat, j: nat)
    requires i <= j <= |u|
    ensures Rank(u, i) <= Rank(u, j)
  {
    if i < j { RankWeaklyMonotone(u, i, j - 1); }
  }

  /** The rows before any appended node is linked. */
  function BareRows(base: Option<MappedBase>, n: nat): (r: Rows)
    ensures |r| == n
  {
    seq(n, (p: nat) => if base.Some? && p < |base.value.rows| then base.value.rows[p] else [])
  }

  /** Rows rebuilt on the heap list the children of each directory in ascending order. */
  lemma {:induction false} LinkedIsCanon(s: Arena, n: nat, p: nat)
    requires n <= |s| && p < |s|
    ensures RowsLinked(s, BareRows(None, |s|), 0, n)[p] == ChildIds(s, p, n)
  {
    if n > 0 { LinkedIsCanon(s, n - 1, p); }
  }

  lemma {:induction false} RebuiltIsCanon(s: Arena)
    ensures RowsLinked(s, BareRows(None, |s|), 0, |s|) == CanonRows(s)
  {
    forall p: nat | p < |s| ensures RowsLinked(s, BareRows(None, |s|), 0, |s|)[p] == CanonRows(s)[p] { LinkedIsCanon(s, |s|, p); }
  }

  lemma BareRowsFit(base: Option<MappedBase>, overrides: map<nat, Slot>, entries: Arena)
    requires base.Some? ==>
      && WellFormed(base.value.slots) && RowsFit(base.value.slots, base.value.rows)
      && (forall i :: 0 <= i < |base.value.slots| ==> base.value.slots[i].used)
      && (forall i :: i in overrides ==> i < |base.value.slots| && overrides[i].parent == base.value.slots[i].parent)
      && WellFormed(Overlay(base, overrides) + entries)
    ensures var s := Overlay(base, overrides) + entries;
            RowsFitTo(s, BareRows(base, |s|), if base.Some? then |base.value.slots| else 0)
  {
    var s := Overlay(base, overrides) + entries;
    var rows := BareRows(base, |s|);
    if base.Some? {
      var b := base.value;
      forall i: nat, p: nat {:trigger ChildOf(Edges(s), i, p)} | i < |b.slots| && ChildOf(Edges(s), i, p) ensures i in rows[p] {
        assert s[i].parent == b.slots[i].parent;
        assert HeapEdge(b.slots, i) == Some(p);
        assert ChildOf(Edges(b.slots), i, p);
      }
      forall p: nat, k: nat {:trigger k in rows[p]} | p < |s| && k in rows[p]
        ensures 0 < k < |s| && s[k].parent == p && (s[k].used && s[p].used ==> HeapEdge(s, k) == Some(p))
      {
        assert k in b.rows[p];
        assert s[k].parent == b.slots[k].parent;
      }
    }
  }

  lemma NoOverrides(base: Option<MappedBase>, directory: bool)
    ensures base.None? ==> Overlay(base, map[]) == []
    ensures CountKind(Overlay(base, map[]), directory) == if base.Some? then CountKind(base.value.slots, directory) else 0
  {
    if base.Some? { assert Overlay(base, map[]) == base.value.slots; }
  }

  lemma CountOverride(base: Option<MappedBase>, seen: map<nat, Slot>, idx: nat, e: Slot, directory: bool)
    requires base.Some? && idx < |base.value.slots| && idx !in seen
    ensures CountKind(Overlay(base, seen[idx := e]), directory)
              + (if base.value.slots[idx].used && base.value.slots[idx].isDir == directory then 1 else 0)
            == CountKind(Overlay(base, seen), directory) + (if e.used && e.isDir == directory then 1 else 0)
    ensures base.value.slots[idx].used && base.value.slots[idx].isDir == directory ==> CountKind(Overlay(base, seen), directory) > 0
  {
    var s, t := Overlay(base, seen), Overlay(base, seen[idx := e]);
    CountChange(s, t, idx, directory);
    SumTerm(|s|, KindWeight(s, directory), idx);
  }

  /** An empty acquisition still has a root. */
  function Acquired(slots: Arena, volumeLabel: Name): Arena
  {
    if slots == [] then [Slot(0, volumeLabel, true, 0, true, 0, 0)] else slots
  }

  /** A heap tree from acquisition slots, its rows built and its totals rolled up. */
  method NewSizeTree(fold: Fold, mount: seq<Name>, slots: Arena, volumeLabel: Name) returns (t: SizeTree)
    requires |slots| <= MAX_U32
    ensures fresh(t) && t.Ok() && t.base.None? && t.extraParents == map[] && t.fold == fold && t.mount == mount && t.blocked == []
    ensures t.Slots() == RollUp(Acquired(slots, volumeLabel))
    ensures t.Kids() == RowsLinked(Acquired(slots, volumeLabel), BareRows(None, |t.Slots()|), 0, |t.Slots()|)
  {
    hide RowsFit, CachesFit, Overlay, RowOf, RollUp, WellFormed, RowsLinked, BareRows;
    ghost var s := Acquired(slots, volumeLabel);
    t := new SizeTree.Bare(fold, mount, Acquired(slots, volumeLabel));
    t.RebuildChildArrays();
    t.RecomputeHeapAggregates();
    NoLinks(RollUp(s), |s|);
  }

  /** Exactly the nodes seen in this walk carry the current generation. */
  ghost predicate Stamped(stamps: seq<U32>, gen: U32, n: nat, seen: set<nat>)
  {
    |stamps| >= n && forall i :: 0 <= i < |stamps| ==> stamps[i] <= gen && (stamps[i] == gen <==> i in seen)
  }

  /** A match in a prefix of the row is the match in the row. */
  lemma {:induction false} FirstLiveStays(s: Arena, fold: Fold, kids: seq<nat>, n: nat, key: Name)
    requires n <= |kids| && FirstLive(s, fold, kids[..n], key).Some?
    ensures FirstLive(s, fold, kids, key) == FirstLive(s, fold, kids[..n], key)
  {
    if n < |kids| {
      var init := kids[..|kids| - 1];
      assert init[..n] == kids[..n];
      FirstLiveStays(s, fold, init, n, key);
    } else {
      assert kids[..n] == kids;
    }
  }

  /** A row that already knows the name keeps its first holder. */
  function Learn(m: NameCache, key: Name, idx: nat): NameCache
  {
    if key in m then m else m[key := idx]
  }

  lemma LinkFits(s: Arena, fold: Fold, kids: seq<nat>, m: NameCache, idx: nat)
    requires CacheFits(s, fold, kids, m) && Valid(s, idx)
    ensures CacheFits(s, fold, kids + [idx], Learn(m, fold(s[idx].name), idx))
  {
    assert (kids + [idx])[..|kids|] == kids;
  }

  lemma LinkedCaches(s: Arena, fold: Fold, rows: Rows, caches: map<nat, NameCache>, parent: nat, idx: nat)
    requires |rows| == |s| && CachesFit(s, fold, rows, caches) && parent < |s| && Valid(s, idx)
    ensures CachesFit(s, fold, rows[parent := rows[parent] + [idx]],
                      if parent in caches then caches[parent := Learn(caches[parent], fold(s[idx].name), idx)] else caches)
  {
    if parent in caches { LinkFits(s, fold, rows[parent], caches[parent], idx); }
  }
}
