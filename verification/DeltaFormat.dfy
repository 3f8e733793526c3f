/** The cumulative delta file: what its bytes say about a base, and when a reader may believe them. */
module DeltaFormat {
  import opened Words
  import opened Forest
  import opened Slots
  import opened Bytes
  import opened ChildRows
  import opened Validation
  import opened BaseFormat
  import opened BaseRoundTrip
  import opened SizeTrees
  import opened IncrementalValidation

  const DELTA_MAGIC: Text := [81, 67, 68, 76, 84, 86, 48, 49]
  const PATCH: nat := 28

  /** A parent's complete child list. */
  datatype KidList = KidList(parent: U32, kids: seq<nat>)

  // -- Framing ---------------------------------------------------------------------------

  datatype Geometry = Geometry(n: nat, poolLen: nat, patches: nat, lists: nat)

  function ReadGeometry(b: Text): Geometry
    requires |b| >= HEADER
  {
    Geometry(U64At(b, 60), U64At(b, 68), U64At(b, 76), U64At(b, 84))
  }

  function ReadDeltaMeta(b: Text): Meta
    requires |b| >= HEADER
  {
    Meta(U64At(b, 20), U64At(b, 28), U64At(b, 36), U64At(b, 44), U64At(b, 52))
  }

  function PoolStart(g: Geometry): nat { HEADER + g.n * 24 }
  function PatchStart(g: Geometry): nat { PoolStart(g) + g.poolLen }
  function ListStart(g: Geometry): nat { PatchStart(g) + g.patches * PATCH }

  /** A delta for the base with this checksum and event, its fixed sections inside the file. */
  predicate DeltaHeaderOk(host: Host, b: Text, base: Decoded)
  {
    && |b| >= HEADER && b[..8] == DELTA_MAGIC && U32At(b, 8) == 1
    && U64At(b, 12) == base.checksum && U64At(b, 100) != 0 && Checksum(host, b, 100) == U64At(b, 100)
    && U64At(b, 92) == |b| - HEADER && ReadDeltaMeta(b).lastEvent >= base.meta.lastEvent
    && |base.slots| + ReadGeometry(b).n <= PARENT_LIMIT && ListStart(ReadGeometry(b)) <= |b|
  }

  /** A delta header readers believe, byte by byte. */
  ghost predicate DeltaHeaded(host: Host, b: Text, base: Decoded)
  {
    && |b| >= 128 && b[..8] == [81, 67, 68, 76, 84, 86, 48, 49] && U32At(b, 8) == 1 && U64At(b, 12) == base.checksum && Sealed(host, b, 100)
    && U64At(b, 20) >= base.meta.lastEvent && U64At(b, 92) == |b| - 128 && |base.slots| + U64At(b, 60) <= 0x4000_0000
    && 128 + U64At(b, 60) * 24 + U64At(b, 68) + U64At(b, 76) * 28 <= |b|
  }

  lemma DeltaHeaderIsHeaded(host: Host, b: Text, base: Decoded)
    ensures DeltaHeaderOk(host, b, base) <==> DeltaHeaded(host, b, base)
  {
    hide U32At, U64At;
    assert Zeros(8) == [0, 0, 0, 0, 0, 0, 0, 0];
  }

  // -- Child lists -------------------------------------------------------------------------

  function ListAt(b: Text, at: nat): (r: Option<KidList>)
    ensures r.Some? ==> at + ListSize(r.value) <= |b|
  {
    if at + 8 > |b| || at + 8 + 4 * U32At(b, at + 4) > |b| then None
    else Some(KidList(U32At(b, at), WordsAt(b, at + 8, U32At(b, at + 4))))
  }

  function ListSize(r: KidList): nat
  {
    8 + 4 * |r.kids|
  }

  /** Exactly np lists, up to the end of the file. */
  function ListsFrom(b: Text, at: nat, np: nat): (r: Option<seq<KidList>>)
    ensures r.Some? ==> |r.value| == np
    decreases np
  {
    if np == 0 then if at == |b| then Some([]) else None
    else
      match ListAt(b, at)
      case None => None
      case Some(head) =>
        match ListsFrom(b, at + ListSize(head), np - 1)
        case None => None
        case Some(tail) => Some([head] + tail)
  }

  // -- Staging -------------------------------------------------------------------------------

  function DeltaPool(b: Text, g: Geometry): Text
    requires ListStart(g) <= |b|
  {
    b[PoolStart(g)..PatchStart(g)]
  }

  function EntryName(b: Text, g: Geometry, i: nat): Option<Name>
    requires ListStart(g) <= |b| && i < g.n
  {
    NameIn(DeltaPool(b, g), U32At(b, HEADER + i * 24 + 4))
  }

  predicate EntryOk(host: Host, b: Text, g: Geometry, i: nat)
    requires ListStart(g) <= |b| && i < g.n
  {
    EntryName(b, g, i).Some? && host.utf8(EntryName(b, g, i).value)
  }

  /** The appended nodes. */
  function Entries(b: Text, g: Geometry): (r: Arena)
    requires ListStart(g) <= |b|
    ensures |r| == g.n
    ensures forall i :: 0 <= i < g.n ==> r[i] == SlotIn(b, HEADER + i * 24, NameOr(EntryName(b, g, i)))
  {
    seq(g.n, (i: nat) requires i < g.n => SlotIn(b, HEADER + i * 24, NameOr(EntryName(b, g, i))))
  }

  function PatchId(b: Text, g: Geometry, j: nat): U32
    requires ListStart(g) <= |b| && j < g.patches
  {
    U32At(b, PatchStart(g) + j * PATCH)
  }

  /** A patch names a base node, and repeats its name offset and parent. */
  predicate PatchOk(b: Text, g: Geometry, base: Decoded, j: nat)
    requires ListStart(g) <= |b| && j < g.patches && |base.nameOffs| == |base.slots|
  {
    var at, id := PatchStart(g) + j * PATCH, PatchId(b, g, j);
    id < |base.slots| && U32At(b, at + 8) == base.nameOffs[id] && BitsParent(U32At(b, at + 4)) == base.slots[id].parent
  }

  /** The base slot with the patched fields; its parent and name stay. */
  function PatchedSlot(b: Text, at: nat, e: Slot): Slot
    requires at + 24 <= |b|
  {
    SlotIn(b, at, e.name).(parent := e.parent)
  }

  /** The first n patches, applied in order. */
  function Patches(b: Text, g: Geometry, base: Decoded, n: nat): (m: map<nat, Slot>)
    requires ListStart(g) <= |b| && n <= g.patches
    ensures forall i :: i in m ==> i < |base.slots|
  {
    if n == 0 then map[] else
      var m := Patches(b, g, base, n - 1);
      var id := PatchId(b, g, n - 1);
      if id < |base.slots| then m[id := PatchedSlot(b, PatchStart(g) + (n - 1) * PATCH + 4, base.slots[id])] else m
  }

  ghost predicate PatchesOk(b: Text, g: Geometry, base: Decoded)
    requires ListStart(g) <= |b| && |base.nameOffs| == |base.slots|
  {
    && (forall j :: 0 <= j < g.patches ==> PatchOk(b, g, base, j))
    && forall i: nat, j: nat :: i < j < g.patches ==> PatchId(b, g, i) != PatchId(b, g, j)
  }

  function BaseView(base: Decoded): MappedBase
  {
    MappedBase(base.slots, base.rows, base.meta.files, base.meta.dirs)
  }

  /** The tree a delta describes. */
  function Staged(b: Text, g: Geometry, base: Decoded): (t: Arena)
    requires ListStart(g) <= |b|
    ensures |t| == |base.slots| + g.n
  {
    Edited(BaseView(base), Patches(b, g, base, g.patches), Entries(b, g))
  }

  // -- Acceptance ---------------------------------------------------------------------------------

  predicate KidOk(t: Arena, p: U32, k: nat)
  {
    0 < k < |t| && k != p && t[k].parent == p
  }

  /** A child list lists nodes that claim the parent, each once, and leaves out no live base child. */
  ghost predicate ListOk(base: Decoded, t: Arena, r: KidList)
    requires |base.rows| == |base.slots|
  {
    && IsDir(t, r.parent) && |r.kids| <= |t| && Distinct(r.kids)
    && (forall j :: 0 <= j < |r.kids| ==> KidOk(t, r.parent, r.kids[j]))
    && (r.parent < |base.slots| ==> forall k :: k in base.rows[r.parent] && Valid(t, k) ==> k in r.kids)
  }

  ghost predicate ListsOk(base: Decoded, t: Arena, lists: seq<KidList>)
    requires |base.rows| == |base.slots|
  {
    && (forall i :: 0 <= i < |lists| ==> ListOk(base, t, lists[i]))
    && forall i, j :: 0 <= i < j < |lists| ==> lists[i].parent != lists[j].parent
  }

  /** A live appended node stands in its parent's list. */
  ghost predicate Covered(t: Arena, lists: seq<KidList>, i: nat)
    requires i < |t|
  {
    t[i].used ==> exists j :: 0 <= j < |lists| && lists[j].parent == t[i].parent && i in lists[j].kids
  }

  predicate BaseShaped(base: Decoded)
  {
    |base.rows| == |base.slots| == |base.nameOffs|
  }

  /** What a node total reads as: nothing for a dead root. */
  function RootSize(t: Arena): U64
  {
    if Valid(t, 0) then t[0].size else 0
  }

  /** The edits are sound: the mapped reader checks them incrementally, the heap reader checks the whole tree. */
  ghost predicate EditsSound(host: Host, b: Text, g: Geometry, base: Decoded, mapped: bool)
    requires ListStart(g) <= |b| && BaseShaped(base)
  {
    if mapped then EditsOk(host, BaseView(base), Patches(b, g, base, g.patches), Entries(b, g), base.rows)
    else ValidTree(host, Staged(b, g, base), true)
  }

  ghost predicate DeltaBodyOk(host: Host, b: Text, g: Geometry, base: Decoded, mapped: bool)
    requires |b| >= HEADER && ListStart(g) <= |b| && BaseShaped(base)
  {
    var t := Staged(b, g, base);
    && (forall i :: 0 <= i < g.n ==> EntryOk(host, b, g, i))
    && PatchesOk(b, g, base)
    && ListsFrom(b, ListStart(g), g.lists).Some?
    && ListsOk(base, t, ListsFrom(b, ListStart(g), g.lists).value)
    && EditsSound(host, b, g, base, mapped)
    && (forall i :: |base.slots| <= i < |t| ==> Covered(t, ListsFrom(b, ListStart(g), g.lists).value, i))
    && ReadDeltaMeta(b).files == CountKind(t, false) && ReadDeltaMeta(b).dirs == CountKind(t, true) && ReadDeltaMeta(b).totalSize == RootSize(t)
  }

  /** A delta a reader applies to this base. */
  ghost predicate DeltaAccepts(host: Host, b: Text, base: Decoded, mapped: bool)
    requires BaseShaped(base)
  {
    DeltaHeaderOk(host, b, base) && DeltaBodyOk(host, b, ReadGeometry(b), base, mapped)
  }

  /** The tree and counts an applied delta gives. */
  function DeltaDenotes(b: Text, base: Decoded): (Arena, Meta)
    requires |b| >= HEADER && ListStart(ReadGeometry(b)) <= |b|
  {
    (Staged(b, ReadGeometry(b), base), ReadDeltaMeta(b))
  }

  // -- The two readers ---------------------------------------------------------------------------------

  /** A decoded base as an accepted file gives it. */
  ghost predicate SoundBase(host: Host, base: Decoded)
  {
    && BaseShaped(base) && Compacted(host, base.slots) && base.rows == CanonRows(base.slots)
    && base.meta.files == CountKind(base.slots, false) && base.meta.dirs == CountKind(base.slots, true)
  }

  lemma AcceptedBaseIsSound(host: Host, b: Text, mount: Text)
    requires Accepts(host, b, mount)
    ensures SoundBase(host, Denotes(b))
  {
    hide RecordOk, RecordAt, RowsOk, CountKind, ValidTree;
    AcceptedAreLive(host, b, ReadLayout(b));
  }

  lemma SoundBaseIsOk(host: Host, base: Decoded, overrides: map<nat, Slot>, entries: Arena)
    requires SoundBase(host, base) && InBase(BaseView(base), overrides) && IdentityKept(BaseView(base), overrides)
    ensures BaseOk(host, BaseView(base), Edited(BaseView(base), overrides, entries), base.rows)
  {
    hide ValidTree, CountKind, ChildIds;
    var t := Edited(BaseView(base), overrides, entries);
    forall k: nat, p: nat {:trigger Claims(t, p, k)} | 0 < k < |base.slots| && p < |base.slots| && Claims(t, p, k) ensures k in base.rows[p] {
      CompactedEdge(host, base.slots, k);
    }
  }

  lemma {:induction false} PatchesKeepIdentity(b: Text, g: Geometry, base: Decoded, n: nat)
    requires ListStart(g) <= |b| && n <= g.patches
    ensures InBase(BaseView(base), Patches(b, g, base, n)) && IdentityKept(BaseView(base), Patches(b, g, base, n))
  {
    hide PatchId, ListStart, PatchStart, U32At, U64At, BitsParent, BitsUsed, BitsDir;
    if n > 0 { PatchesKeepIdentity(b, g, base, n - 1); }
  }

  /** The heap reader takes exactly the deltas the mapped reader takes that leave no live node under a dead parent. */
  lemma DeltaReadersAgree(host: Host, b: Text, base: Decoded)
    requires SoundBase(host, base)
    ensures DeltaAccepts(host, b, base, false)
       <==> DeltaAccepts(host, b, base, true) && NoOrphans(Staged(b, ReadGeometry(b), base))
  {
    if DeltaHeaderOk(host, b, base) {
      hide DeltaHeaderOk, CountKind, ListsOk, PatchesOk, EntryOk, Covered, NoOrphans, ValidTree, EditsOk, SoundBase, ListsFrom, Patches, Entries;
      var g := ReadGeometry(b);
      HeaderFits(host, b, base);
      PatchesKeepIdentity(b, g, base, g.patches);
      SoundBaseIsOk(host, base, Patches(b, g, base, g.patches), Entries(b, g));
      IncrementalMeetsFull(host, BaseView(base), Patches(b, g, base, g.patches), Entries(b, g), base.rows);
    }
  }

  lemma HeaderFits(host: Host, b: Text, base: Decoded)
    requires DeltaHeaderOk(host, b, base)
    ensures |b| >= HEADER && ListStart(ReadGeometry(b)) <= |b|
  {
  }

  /** An applied delta gives a valid, parent-first tree, if it leaves no orphan. */
  lemma AppliedIsValid(host: Host, b: Text, base: Decoded, mapped: bool)
    requires SoundBase(host, base) && DeltaAccepts(host, b, base, mapped)
    requires mapped ==> NoOrphans(DeltaDenotes(b, base).0)
    ensures ValidTree(host, DeltaDenotes(b, base).0, true)
  {
    hide DeltaHeaderOk, NoOrphans, ValidTree, SoundBase, Staged, ListsFrom, EditsOk, ListsOk, PatchesOk, Covered;
    DeltaReadersAgree(host, b, base);
    HeaderFits(host, b, base);
  }
}
