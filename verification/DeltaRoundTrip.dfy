/** Reading back a delta gives the edited tree it was written from. */
module DeltaRoundTrip {
  import opened Words
  import opened Forest
  import opened Slots
  import opened Bytes
  import opened ChildRows
  import opened Validation
  import opened BaseFormat
  import opened Interning
  import opened BaseImage
  import opened BaseRoundTrip
  import opened OrderedEncoder
  import opened IncrementalValidation
  import opened DeltaFormat
  import opened DeltaImage

  // -- Header ------------------------------------------------------------------------------

  lemma Halves(v: U64)
    ensures Low(v) + TWO_TO_THE_32 * High(v) == v
  {
  }

  lemma HeadWordReads(b: Text, w: seq<U32>, k: nat, v: U64)
    requires |b| >= HEADER && w == WordsAt(b, 0, HEAD_WORDS) && k + 1 < HEAD_WORDS && w[k] == Low(v) && w[k + 1] == High(v)
    ensures U64At(b, 4 * k) == v
  {
    hide U32At;
    Halves(v);
    assert w[k] == U32At(b, 4 * k) && w[k + 1] == U32At(b, 4 * (k + 1));
  }

  lemma DeltaHeadFirst(baseSum: U64, meta: Meta, g: Geometry, bodyLen: nat, sum: U64, reserved: seq<U32>)
    requires |reserved| == 4
    ensures var w := DeltaHead(baseSum, meta, g, bodyLen, sum, reserved);
            && w[0] == DELTA_MAGIC_LOW && w[1] == DELTA_MAGIC_HIGH && w[2] == 1 && w[3] == Low(baseSum) && w[4] == High(baseSum)
            && w[5] == Low(meta.lastEvent) && w[6] == High(meta.lastEvent)
  {
    hide Low, High;
  }

  lemma DeltaHeadMeta(baseSum: U64, meta: Meta, g: Geometry, bodyLen: nat, sum: U64, reserved: seq<U32>)
    requires |reserved| == 4
    ensures var w := DeltaHead(baseSum, meta, g, bodyLen, sum, reserved);
            && w[7] == Low(meta.scannedAt) && w[8] == High(meta.scannedAt)
            && w[9] == Low(meta.files) && w[10] == High(meta.files) && w[11] == Low(meta.dirs) && w[12] == High(meta.dirs)
            && w[13] == Low(meta.totalSize) && w[14] == High(meta.totalSize)
  {
    hide Low, High;
  }

  lemma DeltaHeadLast(baseSum: U64, meta: Meta, g: Geometry, bodyLen: nat, sum: U64, reserved: seq<U32>)
    requires |reserved| == 4
    ensures var w := DeltaHead(baseSum, meta, g, bodyLen, sum, reserved);
            && w[15] == Low(g.n) && w[16] == High(g.n) && w[17] == Low(g.poolLen) && w[18] == High(g.poolLen)
            && w[19] == Low(g.patches) && w[20] == High(g.patches) && w[21] == Low(g.lists) && w[22] == High(g.lists)
            && w[23] == Low(bodyLen) && w[24] == High(bodyLen) && w[25] == Low(sum) && w[26] == High(sum)
  {
    hide Low, High;
  }

  lemma DeltaHeadReads(b: Text, baseSum: U64, meta: Meta, g: Geometry, bodyLen: U64, sum: U64, reserved: seq<U32>)
    requires |b| >= HEADER && |reserved| == 4 && g.n <= MAX_U64 && g.poolLen <= MAX_U64 && g.patches <= MAX_U64 && g.lists <= MAX_U64
    requires WordsAt(b, 0, HEAD_WORDS) == DeltaHead(baseSum, meta, g, bodyLen, sum, reserved)
    ensures ReadGeometry(b) == g && ReadDeltaMeta(b) == meta && U64At(b, 100) == sum && U64At(b, 12) == baseSum && U64At(b, 92) == bodyLen
    ensures U32At(b, 8) == 1 && b[..8] == DELTA_MAGIC
  {
    hide U32At, U64At, Low, High, DeltaHead;
    var w := WordsAt(b, 0, HEAD_WORDS);
    DeltaHeadFirst(baseSum, meta, g, bodyLen, sum, reserved);
    DeltaHeadMeta(baseSum, meta, g, bodyLen, sum, reserved);
    DeltaHeadLast(baseSum, meta, g, bodyLen, sum, reserved);
    assert w[0] == U32At(b, 4 * 0) && w[1] == U32At(b, 4 * 1) && w[2] == U32At(b, 4 * 2);
    HeadWordReads(b, w, 3, baseSum);
    HeadWordReads(b, w, 5, meta.lastEvent);
    HeadWordReads(b, w, 7, meta.scannedAt);
    HeadWordReads(b, w, 9, meta.files);
    HeadWordReads(b, w, 11, meta.dirs);
    HeadWordReads(b, w, 13, meta.totalSize);
    HeadWordReads(b, w, 15, g.n);
    HeadWordReads(b, w, 17, g.poolLen);
    HeadWordReads(b, w, 19, g.patches);
    HeadWordReads(b, w, 21, g.lists);
    HeadWordReads(b, w, 23, bodyLen);
    HeadWordReads(b, w, 25, sum);
    DeltaMagicReads(b);
  }

  lemma DeltaMagicReads(b: Text)
    requires |b| >= 8 && U32At(b, 0) == DELTA_MAGIC_LOW && U32At(b, 4) == DELTA_MAGIC_HIGH
    ensures b[..8] == DELTA_MAGIC
  {
    U32Bytes(b, 0);
    U32Bytes(b, 4);
    Digit32(81, 67, 68, 76);
    Digit32(84, 86, 48, 49);
    assert b[..8] == b[0..4] + b[4..8];
  }

  // -- Lists --------------------------------------------------------------------------------

  lemma {:induction false} ListTableLong(lists: seq<KidList>)
    ensures |ListTable(lists)| >= 2 * |lists|
  {
    if lists != [] { ListTableLong(lists[1..]); }
  }

  predicate NarrowLists(lists: seq<KidList>)
  {
    forall i :: 0 <= i < |lists| ==> |lists[i].kids| <= MAX_U32
  }

  /** A word table that is a list table parses back to the lists. */
  lemma {:induction false} ListsReadBack(b: Text, at: nat, lists: seq<KidList>)
    requires NarrowLists(lists) && at + 4 * |ListTable(lists)| == |b|
    requires WordsAt(b, at, |ListTable(lists)|) == ListTable(lists)
    ensures ListsFrom(b, at, |lists|) == Some(lists)
    decreases |lists|
  {
    hide U32At;
    if lists != [] {
      var r, rest := lists[0], lists[1..];
      var w := WordsAt(b, at, |ListTable(lists)|);
      assert w == ListWords(r) + ListTable(rest);
      assert w[0] == U32At(b, at) && w[1] == U32At(b, at + 4);
      forall k: nat | k < |r.kids| ensures U32At(b, at + 8 + 4 * k) == r.kids[k] {
        assert w[k + 2] == U32At(b, at + 4 * (k + 2));
      }
      assert WordsAt(b, at + 8, |r.kids|) == r.kids;
      var next := at + ListSize(r);
      forall k: nat | k < |ListTable(rest)| ensures U32At(b, next + 4 * k) == ListTable(rest)[k] {
        assert w[k + |ListWords(r)|] == U32At(b, at + 4 * (k + |ListWords(r)|));
      }
      assert WordsAt(b, next, |ListTable(rest)|) == ListTable(rest);
      ListsReadBack(b, next, rest);
      assert lists == [r] + rest;
    }
  }

  // -- Entries and patches -----------------------------------------------------------------------

  /** The edits come from a valid tree over a sound base whose identities it kept. */
  ghost predicate FromTree(host: Host, base: Decoded, x: Diff)
  {
    && SoundBase(host, base) && ValidTree(host, x.t, true) && x.bn == |base.slots| <= |x.t| && x.offs == base.nameOffs
    && (forall i :: 0 <= i < x.bn ==> SameIdentity(x.t[i], base.slots[i]))
    && x.ids == ChangedIds(base.slots, x.t, x.bn) && x.lists == NewLists(x.t, x.bn, |x.t|)
    && (forall i :: 0 <= i < x.bn ==> x.offs[i] <= MAX_U32)
  }

  /** The sections of the file are where the header says. */
  lemma SectionsMeet(b: Text, x: Diff)
    requires Writable(x) && |b| == DeltaLength(ShapeOf(x))
    ensures var g := GeometryOf(x);
            && PatchStart(g) == TailStart(ShapeOf(x)) && ListStart(g) <= |b| && ListStart(g) + 4 * |ListTable(x.lists)| == |b|
            && g.n <= MAX_U64 && g.poolLen <= MAX_U64 && g.patches <= MAX_U64 && g.lists <= MAX_U64
  {
    hide InternAll, PatchTable;
    ListTableLong(x.lists);
  }

  lemma EntryReads(host: Host, b: Text, x: Diff, i: nat)
    requires Writable(x) && ValidTree(host, x.t, true) && |b| == DeltaLength(ShapeOf(x)) && i < |x.t| - x.bn
    requires WordsAt(b, HEADER, RECORD_WORDS * (|x.t| - x.bn)) == AppendedTable(x)
    requires b[HEADER + (|x.t| - x.bn) * 24..TailStart(ShapeOf(x))] == DeltaPoolOf(x) && |DeltaPoolOf(x)| <= MAX_U32
    requires ListStart(GeometryOf(x)) <= |b|
    ensures EntryOk(host, b, GeometryOf(x), i) && SlotIn(b, HEADER + i * 24, NameOr(EntryName(b, GeometryOf(x), i))) == x.t[x.bn + i]
  {
    hide InternAll, U32At, Acyclic, SafeName, LinkOk, NameIn, RecordBits, BitsParent, BitsUsed, BitsDir, TailOf;
    AppendedAreNarrow(x);
    var c := x.t[x.bn..];
    var names := NamesOf(c);
    var offs := Offsets(names);
    var w := WordsAt(b, HEADER, RECORD_WORDS * |c|);
    OffsetsRead(names, i);
    assert Representable(host, x.t[x.bn + i]);
    forall k: nat | k < 6 ensures w[6 * i + k] == RecordWord(c[i], offs[i], k) {
      TableWord(c, offs, i, k);
    }
    RecordReads(b, HEADER, c[i], offs[i], w, i);
  }

  lemma PatchTableWord(t: Arena, offs: seq<nat>, ids: seq<nat>, j: nat, k: nat)
    requires Narrow(t) && IdsIn(ids, |t|) && IdsIn(ids, |offs|) && j < |ids| && k < PATCH_WORDS
    ensures PatchTable(t, offs, ids)[PATCH_WORDS * j + k] == PatchWord(t, offs, ids[j], k)
  {
  }

  lemma PatchReads(host: Host, base: Decoded, b: Text, x: Diff, j: nat)
    requires Writable(x) && FromTree(host, base, x) && |b| == DeltaLength(ShapeOf(x)) && j < |x.ids|
    requires WordsAt(b, TailStart(ShapeOf(x)), |TailOf(x)|) == TailOf(x)
    requires ListStart(GeometryOf(x)) <= |b| && PatchStart(GeometryOf(x)) == TailStart(ShapeOf(x))
    ensures PatchId(b, GeometryOf(x), j) == x.ids[j] && PatchOk(b, GeometryOf(x), base, j)
    ensures PatchedSlot(b, PatchStart(GeometryOf(x)) + j * PATCH + 4, base.slots[x.ids[j]]) == x.t[x.ids[j]]
  {
    hide InternAll, U32At, Acyclic, SafeName, LinkOk, RecordWord, BitsParent, SlotIn, PatchTable, ListTable, DeltaPoolOf, TailOf, SoundBase, ChangedIds, NewLists, WordsAt;
    var at := TailStart(ShapeOf(x));
    var id := x.ids[j];
    var w := TailOf(x);
    PatchTableLength(x);
    assert Representable(host, x.t[id]);
    PatchWords(x, w, j);
    PatchFields(b, at, w, x.t[id], x.offs[id], j, id);
    assert SameIdentity(x.t[id], base.slots[id]);
  }

  lemma PatchTableLength(x: Diff)
    requires Writable(x)
    ensures |PatchTable(x.t, x.offs, x.ids)| == PATCH_WORDS * |x.ids| <= |TailOf(x)|
  {
    hide InternAll;
  }

  lemma PatchWords(x: Diff, w: seq<nat>, j: nat)
    requires Writable(x) && w == TailOf(x) && j < |x.ids| && PATCH_WORDS * |x.ids| <= |w|
    ensures w[PATCH_WORDS * j] == x.ids[j] % TWO_TO_THE_32
    ensures forall k: nat {:trigger RecordWord(x.t[x.ids[j]], x.offs[x.ids[j]], k)} :: k < 6 ==>
              w[PATCH_WORDS * j + 1 + k] == RecordWord(x.t[x.ids[j]], x.offs[x.ids[j]], k)
  {
    hide InternAll, PatchTable, RecordWord;
    PatchTableWord(x.t, x.offs, x.ids, j, 0);
    forall k: nat | k < 6 ensures w[PATCH_WORDS * j + 1 + k] == RecordWord(x.t[x.ids[j]], x.offs[x.ids[j]], k) {
      PatchTableWord(x.t, x.offs, x.ids, j, 1 + k);
    }
  }

  lemma PatchFields(b: Text, at: nat, w: seq<nat>, e: Slot, off: nat, j: nat, id: nat)
    requires at + 4 * |w| <= |b| && w == WordsAt(b, at, |w|) && PATCH_WORDS * j + PATCH_WORDS <= |w|
    requires e.parent < PARENT_LIMIT && e.mtime <= MAX_U32 && e.files <= MAX_U32 && off <= MAX_U32 && id <= MAX_U32
    requires w[PATCH_WORDS * j] == id && forall k: nat {:trigger RecordWord(e, off, k)} :: k < 6 ==> w[PATCH_WORDS * j + 1 + k] == RecordWord(e, off, k)
    ensures U32At(b, at + j * PATCH) == id && U32At(b, at + j * PATCH + 8) == off && BitsParent(U32At(b, at + j * PATCH + 4)) == e.parent
    ensures SlotIn(b, at + j * PATCH + 4, e.name) == e
  {
    hide U32At, RecordBits, BitsParent, BitsUsed, BitsDir;
    var m := PATCH_WORDS * j;
    assert w[m + 1] == RecordWord(e, off, 0) && w[m + 2] == RecordWord(e, off, 1) && w[m + 3] == RecordWord(e, off, 2);
    assert w[m + 4] == RecordWord(e, off, 3) && w[m + 5] == RecordWord(e, off, 4) && w[m + 6] == RecordWord(e, off, 5);
    assert w[m] == U32At(b, at + 4 * m) && w[m + 1] == U32At(b, at + 4 * (m + 1)) && w[m + 2] == U32At(b, at + 4 * (m + 2)) && w[m + 3] == U32At(b, at + 4 * (m + 3));
    assert w[m + 4] == U32At(b, at + 4 * (m + 4)) && w[m + 5] == U32At(b, at + 4 * (m + 5)) && w[m + 6] == U32At(b, at + 4 * (m + 6));
  }

  /** A file laid out as the delta of x: its sections stand where the header says and read as written. */
  ghost predicate LaidOut(b: Text, x: Diff)
  {
    && Writable(x) && |b| == DeltaLength(ShapeOf(x)) && |b| >= HEADER && |DeltaPoolOf(x)| <= MAX_U32
    && WordsAt(b, HEADER, RECORD_WORDS * (|x.t| - x.bn)) == AppendedTable(x)
    && b[HEADER + (|x.t| - x.bn) * 24..TailStart(ShapeOf(x))] == DeltaPoolOf(x)
    && WordsAt(b, TailStart(ShapeOf(x)), |TailOf(x)|) == TailOf(x)
    && ListStart(GeometryOf(x)) <= |b| && PatchStart(GeometryOf(x)) == TailStart(ShapeOf(x))
    && ListStart(GeometryOf(x)) + 4 * |ListTable(x.lists)| == |b|
  }

  lemma {:induction false} ChangedDistinct(s: Arena, t: Arena, n: nat)
    requires n <= |s| <= |t|
    ensures Distinct(ChangedIds(s, t, n))
  {
  }

  /** Patch j says what became of slot ids[j]. */
  ghost predicate PatchSays(b: Text, g: Geometry, base: Decoded, ids: seq<nat>, t: Arena, j: nat)
    requires ListStart(g) <= |b| && g.patches == |ids| && |base.slots| <= |t| && j < |ids|
  {
    ids[j] < |base.slots| && PatchId(b, g, j) == ids[j] && PatchedSlot(b, PatchStart(g) + j * PATCH + 4, base.slots[ids[j]]) == t[ids[j]]
  }

  /** The patches put back the changed slots. */
  lemma {:induction false} PatchesRead(b: Text, g: Geometry, base: Decoded, ids: seq<nat>, t: Arena, n: nat)
    requires ListStart(g) <= |b| && g.patches == |ids| && |base.slots| <= |t| && n <= |ids|
    requires forall j: nat :: j < |ids| ==> PatchSays(b, g, base, ids, t, j)
    ensures forall i :: i in Patches(b, g, base, n) ==> i < |t| && Patches(b, g, base, n)[i] == t[i]
    ensures forall j :: 0 <= j < n ==> ids[j] in Patches(b, g, base, n)
  {
    hide PatchedSlot, PatchId, Patches, ListStart, PatchStart;
    PatchesStep(b, g, base, n);
    if n > 0 {
      PatchesRead(b, g, base, ids, t, n - 1);
      assert PatchSays(b, g, base, ids, t, n - 1);
    }
  }

  lemma {:induction false} PatchesStep(b: Text, g: Geometry, base: Decoded, n: nat)
    requires ListStart(g) <= |b| && n <= g.patches
    ensures n == 0 ==> Patches(b, g, base, n) == map[]
    ensures n > 0 && PatchId(b, g, n - 1) < |base.slots| ==>
              Patches(b, g, base, n) == Patches(b, g, base, n - 1)[PatchId(b, g, n - 1) as nat := PatchedSlot(b, PatchStart(g) + (n - 1) * PATCH + 4, base.slots[PatchId(b, g, n - 1)])]
  {
    hide PatchId, PatchedSlot;
  }

  lemma FromTreeFacts(host: Host, base: Decoded, x: Diff)
    requires FromTree(host, base, x)
    ensures SoundBase(host, base) && ValidTree(host, x.t, true) && 0 < x.bn == |base.slots| <= |x.t| && |base.nameOffs| == |base.rows| == |base.slots|
    ensures IdsIn(x.ids, x.bn) && Distinct(x.ids) && forall i :: 0 <= i < x.bn ==> (i in x.ids <==> x.t[i] != base.slots[i])
    ensures |x.t| <= PARENT_LIMIT && x.lists == NewLists(x.t, x.bn, |x.t|)
  {
    hide ChangedIds, NewLists, Acyclic, CanonRows;
    ChangedDistinct(base.slots, x.t, x.bn);
  }

  lemma LaidOutPatches(host: Host, base: Decoded, b: Text, x: Diff)
    requires FromTree(host, base, x) && LaidOut(b, x)
    ensures forall j: nat :: j < |x.ids| ==> PatchSays(b, GeometryOf(x), base, x.ids, x.t, j)
    ensures BaseShaped(base) && PatchesOk(b, GeometryOf(x), base)
  {
    hide FromTree, InternAll, DeltaPoolOf, TailOf, AppendedTable, PatchedSlot, PatchId, PatchOk, WordsAt, ListTable, ValidTree, SoundBase;
    FromTreeFacts(host, base, x);
    forall j: nat | j < |x.ids| ensures PatchSays(b, GeometryOf(x), base, x.ids, x.t, j) && PatchOk(b, GeometryOf(x), base, j) {
      PatchReads(host, base, b, x, j);
    }
    forall i: nat, j: nat | i < j < |x.ids| ensures PatchId(b, GeometryOf(x), i) != PatchId(b, GeometryOf(x), j) {
      assert PatchSays(b, GeometryOf(x), base, x.ids, x.t, i) && PatchSays(b, GeometryOf(x), base, x.ids, x.t, j);
      assert x.ids[i] != x.ids[j];
    }
  }

  lemma LaidOutEntries(host: Host, b: Text, x: Diff)
    requires LaidOut(b, x) && ValidTree(host, x.t, true)
    ensures forall i: nat :: i < |x.t| - x.bn ==> EntryOk(host, b, GeometryOf(x), i)
    ensures Entries(b, GeometryOf(x)) == x.t[x.bn..]
  {
    hide InternAll, DeltaPoolOf, TailOf, AppendedTable, WordsAt, ListTable, EntryOk, EntryName, SlotIn, ValidTree;
    forall i: nat | i < |x.t| - x.bn ensures EntryOk(host, b, GeometryOf(x), i) && Entries(b, GeometryOf(x))[i] == x.t[x.bn + i] {
      EntryReads(host, b, x, i);
    }
  }

  lemma StagedIsTree(host: Host, base: Decoded, b: Text, x: Diff)
    requires FromTree(host, base, x) && LaidOut(b, x)
    ensures Staged(b, GeometryOf(x), base) == x.t
    ensures forall i: nat :: i < |x.t| - x.bn ==> EntryOk(host, b, GeometryOf(x), i)
    ensures BaseShaped(base) && PatchesOk(b, GeometryOf(x), base)
  {
    hide FromTree, InternAll, DeltaPoolOf, TailOf, AppendedTable, PatchSays, WordsAt, ListTable, Patches, EntryOk, Entries, ValidTree, SoundBase, PatchesOk;
    FromTreeFacts(host, base, x);
    LaidOutPatches(host, base, b, x);
    LaidOutEntries(host, b, x);
    StagedFrom(b, GeometryOf(x), base, x);
  }

  lemma StagedFrom(b: Text, g: Geometry, base: Decoded, x: Diff)
    requires ListStart(g) <= |b| && g.patches == |x.ids| && g.n == |x.t| - x.bn && x.bn == |base.slots| <= |x.t|
    requires forall i :: 0 <= i < x.bn ==> (i in x.ids <==> x.t[i] != base.slots[i])
    requires forall j: nat :: j < |x.ids| ==> PatchSays(b, g, base, x.ids, x.t, j)
    requires Entries(b, g) == x.t[x.bn..]
    ensures Staged(b, g, base) == x.t
  {
    hide PatchSays, Patches, Entries, ListStart;
    PatchesRead(b, g, base, x.ids, x.t, |x.ids|);
    var t := Staged(b, g, base);
    forall i: nat | i < |t| ensures t[i] == x.t[i] {
      if i < x.bn && i in x.ids {
        var j :| 0 <= j < |x.ids| && x.ids[j] == i;
      }
    }
  }

  // -- The lists ------------------------------------------------------------------------------------

  lemma {:induction false} NewListsAre(t: Arena, bn: nat, m: nat)
    requires m <= |t| <= PARENT_LIMIT
    ensures forall i :: 0 <= i < |NewLists(t, bn, m)| ==> var r := NewLists(t, bn, m)[i]; r.parent < m && r.kids == ChildIds(t, r.parent, |t|)
    ensures forall i, j :: 0 <= i < j < |NewLists(t, bn, m)| ==> NewLists(t, bn, m)[i].parent < NewLists(t, bn, m)[j].parent
    ensures forall p: nat :: p < m && HasNewChild(t, bn, p) ==> exists i :: 0 <= i < |NewLists(t, bn, m)| && NewLists(t, bn, m)[i].parent == p
    ensures forall i :: 0 <= i < |NewLists(t, bn, m)| ==> ChildIds(t, NewLists(t, bn, m)[i].parent, |t|) != []
  {
    hide ChildIds;
    if m > 0 {
      NewListsAre(t, bn, m - 1);
      var front, all := NewLists(t, bn, m - 1), NewLists(t, bn, m);
      forall p: nat | p < m && HasNewChild(t, bn, p) ensures exists i :: 0 <= i < |all| && all[i].parent == p {
        if p < m - 1 {
          var i :| 0 <= i < |front| && front[i].parent == p;
          assert all[i].parent == p;
        } else {
          assert all[|front|].parent == p;
        }
      }
    }
  }

  lemma ValidEdge(host: Host, t: Arena, i: nat)
    requires ValidTree(host, t, true) && 0 < i < |t| && t[i].used
    ensures HeapEdge(t, i) == Some(t[i].parent as nat) && t[i].parent < i && IsDir(t, t[i].parent)
  {
    assert LinkOk(host, t, i, true);
  }

  /** A list the writer emits is one the reader accepts. */
  lemma NewListOk(host: Host, base: Decoded, x: Diff, r: KidList)
    requires FromTree(host, base, x) && r.parent < |x.t| && r.kids == ChildIds(x.t, r.parent, |x.t|) != []
    ensures ListOk(base, x.t, r)
  {
    hide Acyclic, ChildIds, NewLists, ChangedIds, SafeName;
    var t := x.t;
    AscendingBound(r.kids, |t|);
    assert r.kids[0] in r.kids;
    forall j | 0 <= j < |r.kids| ensures KidOk(t, r.parent, r.kids[j]) {
      assert r.kids[j] in r.kids;
    }
    if r.parent < |base.slots| {
      forall k | k in base.rows[r.parent] && Valid(t, k) ensures k in r.kids {
        assert HeapEdge(base.slots, k) == Some(r.parent as nat);
        assert SameIdentity(t[k], base.slots[k]);
        ValidEdge(host, t, k);
      }
    }
  }

  lemma NewListsOk(host: Host, base: Decoded, x: Diff)
    requires FromTree(host, base, x)
    ensures ListsOk(base, x.t, x.lists) && NarrowLists(x.lists)
    ensures forall i: nat :: x.bn <= i < |x.t| ==> Covered(x.t, x.lists, i)
  {
    hide FromTree, ValidTree, SoundBase, NewLists, ListOk, Covered, ChildIds;
    FromTreeFacts(host, base, x);
    NewListsAre(x.t, x.bn, |x.t|);
    forall i | 0 <= i < |x.lists| ensures ListOk(base, x.t, x.lists[i]) && |x.lists[i].kids| <= MAX_U32 {
      NewListOk(host, base, x, x.lists[i]);
      AscendingBound(x.lists[i].kids, |x.t|);
    }
    forall i: nat | x.bn <= i < |x.t| ensures Covered(x.t, x.lists, i) {
      AppendedCovered(host, x.t, x.bn, i, x.lists);
    }
  }

  lemma {:induction false} AppendedCovered(host: Host, t: Arena, bn: nat, i: nat, lists: seq<KidList>)
    requires ValidTree(host, t, true) && bn <= i < |t| <= PARENT_LIMIT && lists == NewLists(t, bn, |t|) && (t[i].used ==> i > 0)
    ensures Covered(t, lists, i)
  {
    hide ValidTree, NewLists, ChildIds;
    if t[i].used {
      NewListsAre(t, bn, |t|);
      ValidEdge(host, t, i);
      var r := ChildIds(t, t[i].parent, |t|);
      assert i in r;
      var a :| 0 <= a < |r| && r[a] == i;
      assert r[|r| - 1] >= i;
      assert HasNewChild(t, bn, t[i].parent);
    }
  }

  // -- The round trip ------------------------------------------------------------------------------------

  lemma IsDeltaReads(host: Host, b: Text, x: Diff, baseSum: U64, meta: Meta, reserved: seq<U32>)
    requires IsDelta(host, b, x, baseSum, meta, reserved) && |DeltaPoolOf(x)| <= MAX_U32
    ensures LaidOut(b, x) && ReadGeometry(b) == GeometryOf(x) && ReadDeltaMeta(b) == meta && U64At(b, 100) == Checksum(host, b, 100)
    ensures U64At(b, 12) == baseSum && U64At(b, 92) == |b| - HEADER && U32At(b, 8) == 1 && b[..8] == DELTA_MAGIC
  {
    hide WordsAt, U32At, U64At, TailOf, AppendedTable, DeltaPoolOf, DeltaHead, Checksum, ReadDeltaMeta, ReadGeometry;
    SectionsMeet(b, x);
    DeltaHeadReads(b, baseSum, meta, GeometryOf(x), |b| - HEADER, Checksum(host, b, 100), reserved);
  }

  /** A reader of a written delta sees the edited tree at every id; it applies it exactly when the checksum is not zero,
      the base is the one written against, the event does not go back and the totals are the tree's. */
  lemma DeltaRoundTrip(host: Host, base: Decoded, b: Text, x: Diff, baseSum: U64, meta: Meta, reserved: seq<U32>, mapped: bool)
    requires FromTree(host, base, x) && BaseShaped(base) && IsDelta(host, b, x, baseSum, meta, reserved) && |DeltaPoolOf(x)| <= MAX_U32
    ensures |b| >= HEADER && ListStart(ReadGeometry(b)) <= |b| && DeltaDenotes(b, base) == (x.t, meta)
    ensures DeltaAccepts(host, b, base, mapped) <==>
            && Checksum(host, b, 100) != 0 && baseSum == base.checksum && meta.lastEvent >= base.meta.lastEvent
            && meta.files == CountKind(x.t, false) && meta.dirs == CountKind(x.t, true) && meta.totalSize == RootSize(x.t)
  {
    hide FromTree, InternAll, DeltaPoolOf, TailOf, AppendedTable, ListTable, ListsFrom, ListsOk, PatchesOk, EntryOk, Covered, EditsSound, CountKind, Checksum, WordsAt, U32At, U64At, ReadGeometry, Staged, NewLists, ValidTree, SoundBase;
    IsDeltaReads(host, b, x, baseSum, meta, reserved);
    FromTreeFacts(host, base, x);
    StagedIsTree(host, base, b, x);
    NewListsOk(host, base, x);
    ListsReadHere(b, x);
    TreeIsSound(host, base, b, x, mapped);
  }

  lemma {:induction false} ListsReadHere(b: Text, x: Diff)
    requires LaidOut(b, x) && NarrowLists(x.lists)
    ensures ListsFrom(b, ListStart(GeometryOf(x)), |x.lists|) == Some(x.lists)
  {
    hide InternAll, DeltaPoolOf, AppendedTable, ListsFrom, U32At, PatchTable, ListTable;
    var at, w := TailStart(ShapeOf(x)), TailOf(x);
    var k0 := PATCH_WORDS * |x.ids|;
    PatchTableLength(x);
    var at' := ListStart(GeometryOf(x));
    forall k: nat | k < |ListTable(x.lists)| ensures U32At(b, at' + 4 * k) == ListTable(x.lists)[k] {
      assert WordsAt(b, at, |w|)[k0 + k] == U32At(b, at + 4 * (k0 + k));
    }
    assert WordsAt(b, at', |ListTable(x.lists)|) == ListTable(x.lists);
    ListsReadBack(b, at', x.lists);
  }

  lemma TreeIsSound(host: Host, base: Decoded, b: Text, x: Diff, mapped: bool)
    requires FromTree(host, base, x) && BaseShaped(base) && LaidOut(b, x) && Staged(b, GeometryOf(x), base) == x.t
    ensures EditsSound(host, b, GeometryOf(x), base, mapped)
  {
    hide FromTree, InternAll, DeltaPoolOf, WordsAt, AppendedTable, TailOf, ValidTree, SoundBase, EditsOk, Patches, Entries, IdentityKept;
    var g := GeometryOf(x);
    FromTreeFacts(host, base, x);
    PatchesKeepIdentity(b, g, base, g.patches);
    SoundBaseIsOk(host, base, Patches(b, g, base, g.patches), Entries(b, g));
    FullImpliesIncremental(host, BaseView(base), Patches(b, g, base, g.patches), Entries(b, g), base.rows);
  }
}
