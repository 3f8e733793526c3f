/** Reading a delta over a decoded base: everything is staged and checked before anything is returned. */
module DeltaDecoding {
  import opened Words
  import opened Forest
  import opened Slots
  import opened Bytes
  import opened Validation
  import opened BaseFormat
  import opened Decoding
  import opened IncrementalValidation
  import opened DeltaFormat

  /** Magic, version, binding, checksum, length and counts, and room for the fixed sections. */
  method CheckDeltaHeader(host: Host, b: Text, base: Decoded) returns (ok: bool)
    ensures ok <==> DeltaHeaderOk(host, b, base)
    ensures ok <==> DeltaHeaded(host, b, base)
  {
    hide DeltaHeaded;
    DeltaHeaderIsHeaded(host, b, base);
    hide Checksum;
    if |b| < HEADER || b[..8] != DELTA_MAGIC || U32At(b, 8) != 1 {
      return false;
    }
    if U64At(b, 12) != base.checksum || U64At(b, 100) == 0 || Checksum(host, b, 100) != U64At(b, 100) {
      return false;
    }
    if U64At(b, 92) != |b| - HEADER {
      return false;
    }
    if U64At(b, 20) < base.meta.lastEvent {
      return false;
    }
    var g := ReadGeometry(b);
    if |base.slots| + g.n > PARENT_LIMIT || g.n > |b| / 24 || g.patches > |b| / PATCH {
      return false;
    }
    return ListStart(g) <= |b|;
  }

  method ReadEntries(host: Host, b: Text, g: Geometry) returns (ok: bool, entries: Arena)
    requires ListStart(g) <= |b|
    ensures ok <==> forall i :: 0 <= i < g.n ==> EntryOk(host, b, g, i)
    ensures ok ==> entries == Entries(b, g)
  {
    hide ListStart, EntryName, SlotIn;
    entries := [];
    for i := 0 to g.n
      invariant |entries| == i && forall k :: 0 <= k < i ==> EntryOk(host, b, g, k)
      invariant forall k :: 0 <= k < i ==> entries[k] == Entries(b, g)[k]
    {
      if !EntryOk(host, b, g, i) {
        return false, entries;
      }
      entries := entries + [Entries(b, g)[i]];
    }
    ok := true;
  }

  method ReadPatches(b: Text, g: Geometry, base: Decoded) returns (ok: bool, overrides: map<nat, Slot>)
    requires ListStart(g) <= |b| && BaseShaped(base)
    ensures ok <==> PatchesOk(b, g, base)
    ensures ok ==> overrides == Patches(b, g, base, g.patches)
  {
    hide ListStart, PatchStart, PatchedSlot, PatchId, PatchOk;
    overrides := map[];
    var seen: set<nat> := {};
    for j := 0 to g.patches
      invariant overrides == Patches(b, g, base, j)
      invariant forall k: nat :: k < j ==> PatchOk(b, g, base, k) && PatchId(b, g, k) as nat in seen
      invariant forall x :: x in seen ==> exists k: nat :: k < j && PatchId(b, g, k) == x
      invariant forall i: nat, k: nat :: i < k < j ==> PatchId(b, g, i) != PatchId(b, g, k)
    {
      var id: nat := PatchId(b, g, j);
      if id in seen || !PatchOk(b, g, base, j) {
        return false, overrides;
      }
      PatchInBase(b, g, base, j);
      seen := seen + {id};
      overrides := overrides[id := PatchedSlot(b, PatchStart(g) + j * PATCH + 4, base.slots[id])];
    }
    ok := true;
  }

  lemma PatchInBase(b: Text, g: Geometry, base: Decoded, j: nat)
    requires ListStart(g) <= |b| && BaseShaped(base) && j < g.patches && PatchOk(b, g, base, j)
    ensures PatchId(b, g, j) < |base.slots| && PatchStart(g) + j * PATCH + PATCH <= |b|
  {
  }

  // -- Child lists -------------------------------------------------------------------------

  method CheckList(base: Decoded, t: Arena, r: KidList) returns (ok: bool)
    requires BaseShaped(base)
    ensures ok <==> ListOk(base, t, r)
  {
    if !IsDir(t, r.parent) || |r.kids| > |t| {
      return false;
    }
    var unique: set<nat> := {};
    for j := 0 to |r.kids|
      invariant forall x :: x in unique <==> x in r.kids[..j]
      invariant forall i :: 0 <= i < j ==> KidOk(t, r.parent, r.kids[i])
      invariant Distinct(r.kids[..j])
    {
      var k := r.kids[j];
      assert r.kids[..j + 1] == r.kids[..j] + [k];
      if !KidOk(t, r.parent, k) {
        return false;
      }
      if k in unique {
        RepeatedKid(r.kids, j);
        return false;
      }
      unique := unique + {k};
    }
    assert r.kids[..|r.kids|] == r.kids;
    if r.parent < |base.slots| {
      ok := CoversRow(t, base.rows[r.parent], r.kids, unique);
      return;
    }
    return true;
  }

  lemma RepeatedKid(kids: seq<nat>, j: nat)
    requires j < |kids| && kids[j] in kids[..j]
    ensures !Distinct(kids)
  {
    var a :| 0 <= a < j && kids[a] == kids[j];
  }

  method CoversRow(t: Arena, row: seq<nat>, kids: seq<nat>, unique: set<nat>) returns (ok: bool)
    requires forall x :: x in unique <==> x in kids
    ensures ok <==> forall k :: k in row && Valid(t, k) ==> k in kids
  {
    for i := 0 to |row|
      invariant forall k :: k in row[..i] && Valid(t, k) ==> k in kids
    {
      assert row[..i + 1] == row[..i] + [row[i]];
      if Valid(t, row[i]) && row[i] !in unique {
        assert row[i] in row;
        return false;
      }
    }
    assert row[..|row|] == row;
    return true;
  }

  /** The lists from `at` on, appended to those already read. */
  function After(parsed: seq<KidList>, rest: Option<seq<KidList>>): Option<seq<KidList>>
  {
    match rest
    case None => None
    case Some(r) => Some(parsed + r)
  }

  lemma NothingParsed(whole: Option<seq<KidList>>)
    ensures whole == After([], whole)
  {
    assert whole.Some? ==> [] + whole.value == whole.value;
  }

  lemma {:induction false} ParseNext(b: Text, at: nat, np: nat, parsed: seq<KidList>, head: KidList)
    requires np > 0 && ListAt(b, at) == Some(head)
    ensures After(parsed, ListsFrom(b, at, np)) == After(parsed + [head], ListsFrom(b, at + ListSize(head), np - 1))
  {
    hide ListAt;
    match ListsFrom(b, at + ListSize(head), np - 1) {
      case None =>
      case Some(tail) => assert parsed + ([head] + tail) == parsed + [head] + tail;
    }
  }

  lemma BadListRejects(base: Decoded, t: Arena, parsed: seq<KidList>, head: KidList, rest: Option<seq<KidList>>)
    requires BaseShaped(base) && rest.Some?
    requires !ListOk(base, t, head) || head.parent in Parents(parsed)
    ensures !ListsOk(base, t, parsed + [head] + rest.value)
  {
    hide ListOk;
    var all := parsed + [head] + rest.value;
    assert all[|parsed|] == head;
    if head.parent in Parents(parsed) {
      var i :| 0 <= i < |parsed| && parsed[i].parent == head.parent;
      assert all[i].parent == all[|parsed|].parent;
    }
  }

  function Parents(lists: seq<KidList>): (r: set<nat>)
    ensures forall p: nat :: p in r <==> exists i :: 0 <= i < |lists| && lists[i].parent == p
  {
    set i | 0 <= i < |lists| :: lists[i].parent as nat
  }

  method ReadLists(b: Text, g: Geometry, base: Decoded, t: Arena) returns (ok: bool, lists: seq<KidList>)
    requires ListStart(g) <= |b| && BaseShaped(base)
    ensures ok <==> ListsFrom(b, ListStart(g), g.lists).Some? && ListsOk(base, t, ListsFrom(b, ListStart(g), g.lists).value)
    ensures ok ==> lists == ListsFrom(b, ListStart(g), g.lists).value
  {
    hide ListStart, ListAt, ListOk, ListSize, U32At;
    lists := [];
    ghost var whole := ListsFrom(b, ListStart(g), g.lists);
    if g.lists > |b| / 8 {
      ListsTakeRoom(b, ListStart(g), g.lists);
      return false, lists;
    }
    var cur: nat := ListStart(g);
    NothingParsed(whole);
    var extras: set<nat> := {};
    for i := 0 to g.lists
      invariant cur <= |b| && |lists| == i && extras == Parents(lists)
      invariant whole == After(lists, ListsFrom(b, cur, g.lists - i))
      invariant ListsOk(base, t, lists)
    {
      var head := ListAt(b, cur);
      if head.None? {
        return false, lists;
      }
      ok := CheckList(base, t, head.value);
      ParseNext(b, cur, g.lists - i, lists, head.value);
      if !ok || head.value.parent as nat in extras {
        var rest := ListsFrom(b, cur + ListSize(head.value), g.lists - i - 1);
        if rest.Some? { BadListRejects(base, t, lists, head.value, rest); }
        return false, lists;
      }
      ParentsNext(lists, head.value);
      lists := lists + [head.value];
      extras := extras + {head.value.parent as nat};
      cur := cur + ListSize(head.value);
    }
    return cur == |b|, lists;
  }

  lemma ParentsNext(lists: seq<KidList>, head: KidList)
    ensures Parents(lists + [head]) == Parents(lists) + {head.parent as nat}
  {
    var all := lists + [head];
    forall p: nat ensures p in Parents(all) <==> p in Parents(lists) || p == head.parent {
      if p in Parents(lists) {
        var i :| 0 <= i < |lists| && lists[i].parent == p;
        assert all[i].parent == p;
      }
      assert all[|lists|].parent == head.parent;
    }
  }

  lemma {:induction false} ListsTakeRoom(b: Text, at: nat, np: nat)
    requires at <= |b|
    ensures ListsFrom(b, at, np).Some? ==> 8 * np <= |b| - at
    decreases np
  {
    if np > 0 && ListsFrom(b, at, np).Some? {
      ListsTakeRoom(b, at + ListSize(ListAt(b, at).value), np - 1);
    }
  }

  method CheckCovered(t: Arena, bn: nat, lists: seq<KidList>) returns (ok: bool)
    requires bn <= |t|
    ensures ok <==> forall i :: bn <= i < |t| ==> Covered(t, lists, i)
  {
    hide Covered;
    for i := bn to |t|
      invariant forall k :: bn <= k < i ==> Covered(t, lists, k)
    {
      ok := IsCovered(t, lists, i);
      if !ok {
        return;
      }
    }
    ok := true;
  }

  method IsCovered(t: Arena, lists: seq<KidList>, i: nat) returns (ok: bool)
    requires i < |t|
    ensures ok <==> Covered(t, lists, i)
  {
    if !t[i].used {
      return true;
    }
    for j := 0 to |lists|
      invariant forall k :: 0 <= k < j ==> !(lists[k].parent == t[i].parent && i in lists[k].kids)
    {
      if lists[j].parent == t[i].parent && i in lists[j].kids {
        return true;
      }
    }
    return false;
  }

  // -- The decoder ------------------------------------------------------------------------------

  /** The mapped reader checks the edits and counts incrementally; the heap reader checks and counts the whole tree. */
  method CheckEdits(host: Host, b: Text, g: Geometry, base: Decoded, mapped: bool, overrides: map<nat, Slot>, entries: Arena) returns (ok: bool, files: int, dirs: int)
    requires SoundBase(host, base) && BaseShaped(base) && ListStart(g) <= |b| && overrides == Patches(b, g, base, g.patches) && entries == Entries(b, g)
    ensures ok <==> EditsSound(host, b, g, base, mapped)
    ensures ok ==> files == CountKind(Staged(b, g, base), false) && dirs == CountKind(Staged(b, g, base), true)
  {
    hide Patches, Entries, ValidTree, EditsOk, BaseOk, SoundBase, CountKind, Edited, IdentityKept, ListStart;
    PatchesKeepIdentity(b, g, base, g.patches);
    if mapped {
      SoundBaseIsOk(host, base, overrides, entries);
      ghost var changed;
      ok, changed, files, dirs := ValidateOverrides(host, BaseView(base), overrides, entries, base.rows);
    } else {
      var t := Edited(BaseView(base), overrides, entries);
      ok := ValidateDiskTree(host, t, true);
      files := CountLive(t, false);
      dirs := CountLive(t, true);
    }
  }

  /** Decodes a delta over a decoded base. */
  method DecodeDelta(host: Host, b: Text, base: Decoded, mapped: bool) returns (r: Option<(Arena, Meta)>)
    requires SoundBase(host, base) && BaseShaped(base)
    ensures r.Some? <==> DeltaAccepts(host, b, base, mapped)
    ensures r.Some? ==> r.value == DeltaDenotes(b, base)
    ensures r.Some? ==> DeltaHeaded(host, b, base)
  {
    hide DeltaHeaderOk, DeltaHeaded, Patches, Entries, EditsSound, PatchesOk, SoundBase, CountKind, ListsFrom, ListsOk, Covered, EntryOk, Edited, ReadGeometry, ReadDeltaMeta;
    var ok := CheckDeltaHeader(host, b, base);
    if !ok {
      return None;
    }
    HeaderFits(host, b, base);
    var g, meta := ReadGeometry(b), ReadDeltaMeta(b);
    var entries, overrides, lists, files, dirs;
    ok, entries := ReadEntries(host, b, g);
    if !ok {
      return None;
    }
    ok, overrides := ReadPatches(b, g, base);
    if !ok {
      return None;
    }
    var t := Edited(BaseView(base), overrides, entries);
    ok, lists := ReadLists(b, g, base, t);
    if !ok {
      return None;
    }
    ok, files, dirs := CheckEdits(host, b, g, base, mapped, overrides, entries);
    if !ok {
      return None;
    }
    ok := CheckCovered(t, |base.slots|, lists);
    if !ok || meta.files != files || meta.dirs != dirs || meta.totalSize != RootSize(t) {
      return None;
    }
    return Some((t, meta));
  }
}
