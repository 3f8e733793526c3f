/** Checking only what can differ from a validated base, against checking the whole tree. */
module IncrementalValidation {
  import opened Words
  import opened Forest
  import opened Slots
  import opened ChildRows
  import opened Validation
  import opened BaseRoundTrip
  import opened SizeTrees
  import opened Decoding

  /** The slots of a base under overrides, then the appended nodes. */
  function Edited(base: MappedBase, overrides: map<nat, Slot>, entries: Arena): (t: Arena)
    ensures |t| == |base.slots| + |entries|
    ensures forall i :: 0 <= i < |base.slots| ==> t[i] == if i in overrides then overrides[i] else base.slots[i]
    ensures forall i :: |base.slots| <= i < |t| ==> t[i] == entries[i - |base.slots|]
  {
    Overlay(Some(base), overrides) + entries
  }

  /** A validated base with true counts, under rows that list at least the base nodes still claiming a base parent. */
  ghost predicate BaseOk(host: Host, base: MappedBase, t: Arena, kids: Rows)
  {
    && Compacted(host, base.slots)
    && base.files == CountKind(base.slots, false) && base.dirs == CountKind(base.slots, true)
    && |kids| >= |base.slots|
    && forall k: nat, p: nat {:trigger Claims(t, p, k)} :: 0 < k < |base.slots| && p < |base.slots| && Claims(t, p, k) ==> k in kids[p]
  }

  /** Overrides touch base nodes only. */
  ghost predicate InBase(base: MappedBase, overrides: map<nat, Slot>)
  {
    forall i :: i in overrides ==> i < |base.slots|
  }

  predicate SameIdentity(e: Slot, b: Slot)
  {
    e.parent == b.parent && e.name == b.name
  }

  /** A live entry of row p that claims p as its parent. */
  predicate Claims(t: Arena, p: nat, k: nat)
  {
    k < |t| && t[k].used && t[k].parent == p
  }

  /** Base directory i became a live non-directory; nobody may still claim it. Rows of dead nodes read as empty. */
  predicate DemotionOk(base: MappedBase, t: Arena, kids: Rows, i: nat)
    requires i < |base.slots| <= |t| && |kids| >= |base.slots|
  {
    t[i] != base.slots[i] && base.slots[i].isDir && (!t[i].used || !t[i].isDir) && t[i].used ==> forall k :: k in kids[i] ==> !Claims(t, i, k)
  }

  ghost predicate OverrideOk(host: Host, base: MappedBase, t: Arena, kids: Rows, i: nat)
    requires i < |base.slots| <= |t| && |kids| >= |base.slots|
  {
    SameIdentity(t[i], base.slots[i]) && Representable(host, t[i]) && LinkOk(host, t, i, false) && DemotionOk(base, t, kids, i)
  }

  predicate AppendedOk(host: Host, t: Arena, i: nat)
    requires i < |t|
  {
    Representable(host, t[i]) && LinkOk(host, t, i, false) && (t[i].used ==> t[i].parent < i)
  }

  /** What the incremental check accepts. */
  ghost predicate EditsOk(host: Host, base: MappedBase, overrides: map<nat, Slot>, entries: Arena, kids: Rows)
    requires InBase(base, overrides) && |kids| >= |base.slots|
  {
    var t := Edited(base, overrides, entries);
    && RootOk(t)
    && (forall i :: i in overrides ==> OverrideOk(host, base, t, kids, i))
    && (forall i :: |base.slots| <= i < |t| ==> AppendedOk(host, t, i))
  }

  // -- Agreement with the full check -----------------------------------------------------

  /** No live node sits under a dead parent. */
  ghost predicate NoOrphans(t: Arena)
  {
    forall i :: 0 < i < |t| && t[i].used && t[i].parent < |t| ==> t[t[i].parent].used
  }

  ghost predicate IdentityKept(base: MappedBase, overrides: map<nat, Slot>)
    requires InBase(base, overrides)
  {
    forall i :: i in overrides ==> SameIdentity(overrides[i], base.slots[i])
  }

  /** A node the incremental check skipped passes the full one. */
  lemma SkippedIsFine(host: Host, base: MappedBase, overrides: map<nat, Slot>, entries: Arena, kids: Rows, i: nat)
    requires BaseOk(host, base, Edited(base, overrides, entries), kids) && InBase(base, overrides) && EditsOk(host, base, overrides, entries, kids)
    requires NoOrphans(Edited(base, overrides, entries)) && i < |base.slots| && i !in overrides
    ensures var t := Edited(base, overrides, entries); Representable(host, t[i]) && LinkOk(host, t, i, true)
  {
    hide Acyclic, SafeName, Edges, CountKind;
    var t := Edited(base, overrides, entries);
    assert Representable(host, base.slots[i]) && LinkOk(host, base.slots, i, true);
    if i > 0 {
      CompactedEdge(host, base.slots, i);
      var p: nat := base.slots[i].parent;
      assert t[p].used;
      assert Claims(t, p, i);
      if p in overrides {
        assert OverrideOk(host, base, t, kids, p);
      }
    }
  }

  lemma OverrideIsFine(host: Host, base: MappedBase, overrides: map<nat, Slot>, entries: Arena, kids: Rows, i: nat)
    requires BaseOk(host, base, Edited(base, overrides, entries), kids) && InBase(base, overrides) && EditsOk(host, base, overrides, entries, kids) && i in overrides
    ensures var t := Edited(base, overrides, entries); Representable(host, t[i]) && LinkOk(host, t, i, true)
  {
    hide Acyclic, SafeName, Edges, CountKind, DemotionOk;
    var t := Edited(base, overrides, entries);
    assert OverrideOk(host, base, t, kids, i);
    assert LinkOk(host, base.slots, i, true);
  }

  /** Incremental acceptance plus the orphan invariant is full acceptance. */
  lemma IncrementalImpliesFull(host: Host, base: MappedBase, overrides: map<nat, Slot>, entries: Arena, kids: Rows)
    requires BaseOk(host, base, Edited(base, overrides, entries), kids) && InBase(base, overrides) && EditsOk(host, base, overrides, entries, kids)
    requires NoOrphans(Edited(base, overrides, entries))
    ensures ValidTree(host, Edited(base, overrides, entries), true)
  {
    hide Acyclic, SafeName, Representable, BaseOk, OverrideOk, Edited, NoOrphans;
    var t := Edited(base, overrides, entries);
    forall i: nat | i < |t| ensures Representable(host, t[i]) && LinkOk(host, t, i, true) {
      if i >= |base.slots| {
        assert AppendedOk(host, t, i);
      } else if i in overrides {
        OverrideIsFine(host, base, overrides, entries, kids, i);
      } else {
        SkippedIsFine(host, base, overrides, entries, kids, i);
      }
    }
    forall j | 0 < j < |t| && t[j].used ensures t[j].parent < j { assert LinkOk(host, t, j, true); }
    BackwardIsAcyclic(t);
  }

  lemma FullImpliesIncremental(host: Host, base: MappedBase, overrides: map<nat, Slot>, entries: Arena, kids: Rows)
    requires BaseOk(host, base, Edited(base, overrides, entries), kids) && InBase(base, overrides) && IdentityKept(base, overrides)
    requires ValidTree(host, Edited(base, overrides, entries), true)
    ensures EditsOk(host, base, overrides, entries, kids) && NoOrphans(Edited(base, overrides, entries))
  {
    hide Acyclic, SafeName, Representable;
    var t := Edited(base, overrides, entries);
    forall i | i in overrides ensures OverrideOk(host, base, t, kids, i) {
      assert LinkOk(host, t, i, true);
      forall k | k in kids[i] && t[i].used && !t[i].isDir ensures !Claims(t, i, k) {
        if k < |t| { assert LinkOk(host, t, k, true); }
      }
    }
    forall i | |base.slots| <= i < |t| ensures AppendedOk(host, t, i) { assert LinkOk(host, t, i, true); }
    forall i | 0 < i < |t| && t[i].used && t[i].parent < |t| ensures t[t[i].parent].used { assert LinkOk(host, t, i, true); }
  }

  /** Over a validated base whose identities are kept, the incremental check accepts what the full check
      accepts, up to orphans: the full check is the incremental one plus the orphan invariant. */
  lemma IncrementalMeetsFull(host: Host, base: MappedBase, overrides: map<nat, Slot>, entries: Arena, kids: Rows)
    requires BaseOk(host, base, Edited(base, overrides, entries), kids) && InBase(base, overrides) && IdentityKept(base, overrides)
    ensures ValidTree(host, Edited(base, overrides, entries), true)
       <==> EditsOk(host, base, overrides, entries, kids) && NoOrphans(Edited(base, overrides, entries))
  {
    hide ValidTree, EditsOk, BaseOk, NoOrphans, IdentityKept;
    KidsLong(host, base, Edited(base, overrides, entries), kids);
    if ValidTree(host, Edited(base, overrides, entries), true) {
      FullImpliesIncremental(host, base, overrides, entries, kids);
    }
    if EditsOk(host, base, overrides, entries, kids) && NoOrphans(Edited(base, overrides, entries)) {
      IncrementalImpliesFull(host, base, overrides, entries, kids);
    }
  }

  // -- Without the invariant -------------------------------------------------------------------

  const ORPHAN_BASE: Arena := [Slot(0, [], true, 1, true, 0, 1), Slot(0, [97], true, 1, true, 0, 1), Slot(1, [102], false, 1, true, 0, 1)]

  /** A directory tombstoned alone: the incremental check passes its live child, the full check does not. */
  lemma OrphanSlipsThrough(host: Host)
    requires host.utf8([]) && host.utf8([97]) && host.utf8([102])
    ensures var base := MappedBase(ORPHAN_BASE, [[1], [2], []], 1, 2);
            var overrides := map[1 := ORPHAN_BASE[1].(used := false)];
            && Compacted(host, base.slots) && InBase(base, overrides) && IdentityKept(base, overrides)
            && EditsOk(host, base, overrides, [], base.rows) && !ValidTree(host, Edited(base, overrides, []), true)
  {
    var base := MappedBase(ORPHAN_BASE, [[1], [2], []], 1, 2);
    var overrides: map<nat, Slot> := map[1 := ORPHAN_BASE[1].(used := false)];
    var t := Edited(base, overrides, []);
    BackwardIsAcyclic(base.slots);
    assert !LinkOk(host, t, 2, true);
  }

  // -- The check itself ---------------------------------------------------------------------------

  /** Base ids whose slots changed. */
  ghost predicate IsChanged(base: MappedBase, t: Arena, i: nat)
  {
    i < |base.slots| <= |t| && t[i] != base.slots[i]
  }

  /** The overrides looked at so far, applied. */
  function Partly(overrides: map<nat, Slot>, left: set<nat>): map<nat, Slot>
  {
    map i | i in overrides && i !in left :: overrides[i]
  }

  lemma CountOverride(base: MappedBase, overrides: map<nat, Slot>, left: set<nat>, i: nat, directory: bool)
    requires InBase(base, overrides) && i in left && left <= overrides.Keys
    ensures i < |base.slots|
    ensures CountKind(Edited(base, Partly(overrides, left - {i}), []), directory) + (if base.slots[i].used && base.slots[i].isDir == directory then 1 else 0)
         == CountKind(Edited(base, Partly(overrides, left), []), directory) + (if overrides[i].used && overrides[i].isDir == directory then 1 else 0)
  {
    var s, t := Edited(base, Partly(overrides, left), []), Edited(base, Partly(overrides, left - {i}), []);
    CountChange(s, t, i, directory);
  }

  function Tally(e: Slot, directory: bool): int
  {
    if e.used && e.isDir == directory then 1 else 0
  }

  method CheckOverride(host: Host, base: MappedBase, t: Arena, kids: Rows, i: nat) returns (ok: bool)
    requires i < |base.slots| <= |t| && |kids| >= |base.slots|
    ensures ok <==> OverrideOk(host, base, t, kids, i)
  {
    hide Representable, LinkOk;
    var e, b := t[i], base.slots[i];
    if !SameIdentity(e, b) || !Representable(host, e) || !LinkOk(host, t, i, false) {
      return false;
    }
    if e == b {
      return true;
    }
    if b.isDir && (!e.used || !e.isDir) {
      // The rows of a dead node read as empty.
      var row := if e.used then kids[i] else [];
      for k := 0 to |row|
        invariant forall j :: 0 <= j < k ==> !Claims(t, i, row[j])
      {
        if Claims(t, i, row[k]) {
          return false;
        }
      }
    }
    return true;
  }

  /** Checks the edits of a tree over a validated base, lists the changed base ids and counts the live nodes. */
  method ValidateOverrides(host: Host, base: MappedBase, overrides: map<nat, Slot>, entries: Arena, kids: Rows)
    returns (ok: bool, changed: seq<nat>, files: int, dirs: int)
    requires BaseOk(host, base, Edited(base, overrides, entries), kids) && InBase(base, overrides)
    ensures ok <==> EditsOk(host, base, overrides, entries, kids)
    ensures ok ==> Ascending(changed) && forall i :: i in changed <==> IsChanged(base, Edited(base, overrides, entries), i)
    ensures ok ==> files == CountKind(Edited(base, overrides, entries), false) && dirs == CountKind(Edited(base, overrides, entries), true)
  {
    hide OverrideOk, AppendedOk, Compacted, Edges;
    var t := Edited(base, overrides, entries);
    changed, files, dirs := [], base.files, base.dirs;
    if !RootOk(t) {
      return false, changed, files, dirs;
    }
    ok, changed, files, dirs := WalkOverrides(host, base, overrides, entries, kids);
    if !ok {
      return;
    }
    for i := 0 to |entries|
      invariant forall j :: |base.slots| <= j < |base.slots| + i ==> AppendedOk(host, t, j)
      invariant files == CountKind(Edited(base, overrides, entries[..i]), false) && dirs == CountKind(Edited(base, overrides, entries[..i]), true)
    {
      if !AppendedOk(host, t, |base.slots| + i) {
        return false, changed, files, dirs;
      }
      CountEntry(base, overrides, entries, i, false);
      CountEntry(base, overrides, entries, i, true);
      files, dirs := files + Tally(entries[i], false), dirs + Tally(entries[i], true);
    }
    assert entries[..|entries|] == entries;
    if files < 0 || dirs < 0 {
      return false, changed, files, dirs;
    }
    changed := SortIds(changed);
  }

  lemma CountEntry(base: MappedBase, overrides: map<nat, Slot>, entries: Arena, i: nat, directory: bool)
    requires i < |entries|
    ensures CountKind(Edited(base, overrides, entries[..i + 1]), directory)
         == CountKind(Edited(base, overrides, entries[..i]), directory) + Tally(entries[i], directory)
  {
    assert entries[..i + 1] == entries[..i] + [entries[i]];
    assert Edited(base, overrides, entries[..i + 1]) == Edited(base, overrides, entries[..i]) + [entries[i]];
    CountAppend(Edited(base, overrides, entries[..i]), entries[i], directory);
  }

  /** The overrides not yet looked at, and what the others have contributed. */
  ghost predicate Walked(host: Host, base: MappedBase, overrides: map<nat, Slot>, t: Arena, kids: Rows, left: set<nat>, changed: seq<nat>, files: int, dirs: int)
    requires InBase(base, overrides) && |kids| >= |base.slots| && |base.slots| <= |t|
  {
    && left <= overrides.Keys && Distinct(changed)
    && (forall i :: i in overrides && i !in left ==> OverrideOk(host, base, t, kids, i))
    && (forall i :: i in changed <==> i in overrides && i !in left && overrides[i] != base.slots[i])
    && files == CountKind(Edited(base, Partly(overrides, left), []), false) && dirs == CountKind(Edited(base, Partly(overrides, left), []), true)
  }

  lemma WalkStarts(host: Host, base: MappedBase, overrides: map<nat, Slot>, t: Arena, kids: Rows)
    requires BaseOk(host, base, t, kids) && InBase(base, overrides) && |base.slots| <= |t|
    ensures Walked(host, base, overrides, t, kids, overrides.Keys, [], base.files, base.dirs)
  {
    hide Compacted, CountKind, OverrideOk;
    assert Edited(base, Partly(overrides, overrides.Keys), []) == base.slots;
  }

  lemma WalkNext(host: Host, base: MappedBase, overrides: map<nat, Slot>, t: Arena, kids: Rows, left: set<nat>, changed: seq<nat>, files: int, dirs: int, i: nat)
    requires InBase(base, overrides) && |kids| >= |base.slots| && |base.slots| <= |t|
    requires Walked(host, base, overrides, t, kids, left, changed, files, dirs) && i in left
    requires OverrideOk(host, base, t, kids, i)
    ensures i < |base.slots|
    ensures Walked(host, base, overrides, t, kids, left - {i}, if overrides[i] == base.slots[i] then changed else changed + [i],
                   files - Tally(base.slots[i], false) + Tally(overrides[i], false), dirs - Tally(base.slots[i], true) + Tally(overrides[i], true))
  {
    hide OverrideOk, CountKind, Edited;
    CountOverride(base, overrides, left, i, false);
    CountOverride(base, overrides, left, i, true);
  }

  lemma WalkEnds(host: Host, base: MappedBase, overrides: map<nat, Slot>, entries: Arena, kids: Rows, changed: seq<nat>, files: int, dirs: int)
    requires InBase(base, overrides) && |kids| >= |base.slots|
    requires Walked(host, base, overrides, Edited(base, overrides, entries), kids, {}, changed, files, dirs)
    ensures forall i :: i in overrides ==> OverrideOk(host, base, Edited(base, overrides, entries), kids, i)
    ensures Distinct(changed) && forall i :: i in changed <==> IsChanged(base, Edited(base, overrides, entries), i)
    ensures files == CountKind(Edited(base, overrides, entries[..0]), false) && dirs == CountKind(Edited(base, overrides, entries[..0]), true)
  {
    hide OverrideOk, CountKind;
    assert Partly(overrides, {}) == overrides;
    assert entries[..0] == [];
  }

  /** Looks at the overrides one by one, in no particular order. */
  method WalkOverrides(host: Host, base: MappedBase, overrides: map<nat, Slot>, entries: Arena, kids: Rows) returns (ok: bool, changed: seq<nat>, files: int, dirs: int)
    requires BaseOk(host, base, Edited(base, overrides, entries), kids) && InBase(base, overrides)
    ensures ok <==> forall i :: i in overrides ==> OverrideOk(host, base, Edited(base, overrides, entries), kids, i)
    ensures ok ==> Distinct(changed) && forall i :: i in changed <==> IsChanged(base, Edited(base, overrides, entries), i)
    ensures ok ==> files == CountKind(Edited(base, overrides, entries[..0]), false) && dirs == CountKind(Edited(base, overrides, entries[..0]), true)
  {
    hide OverrideOk, Walked, CountKind, BaseOk;
    var t := Edited(base, overrides, entries);
    KidsLong(host, base, Edited(base, overrides, entries), kids);
    changed, files, dirs := [], base.files, base.dirs;
    WalkStarts(host, base, overrides, t, kids);
    var left := overrides.Keys;
    while left != {}
      invariant left <= overrides.Keys && Walked(host, base, overrides, t, kids, left, changed, files, dirs)
      decreases |left|
    {
      var i :| i in left;
      ok := CheckOverride(host, base, t, kids, i);
      if !ok {
        return;
      }
      WalkNext(host, base, overrides, t, kids, left, changed, files, dirs, i);
      files, dirs := files - Tally(base.slots[i], false) + Tally(overrides[i], false), dirs - Tally(base.slots[i], true) + Tally(overrides[i], true);
      changed := if overrides[i] == base.slots[i] then changed else changed + [i];
      left := left - {i};
    }
    WalkEnds(host, base, overrides, entries, kids, changed, files, dirs);
    ok := true;
  }

  lemma KidsLong(host: Host, base: MappedBase, t: Arena, kids: Rows)
    requires BaseOk(host, base, t, kids)
    ensures |kids| >= |base.slots|
  {
  }
}
