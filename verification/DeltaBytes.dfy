/** What an accepted delta says, read off its bytes and in the terms of the tree it gives. */
module DeltaBytes {
  import opened Words
  import opened Slots
  import opened Bytes
  import opened ChildRows
  import opened Validation
  import opened BaseFormat
  import opened BaseImage
  import opened BaseRoundTrip
  import opened DeltaFormat
  import opened DeltaImage

  /** A written delta altered anywhere but in its checksum is refused over every base, unless the change leaves the hash alone. */
  lemma AlteredDeltaIsRefused(host: Host, b: Text, x: Diff, baseSum: U64, meta: Meta, reserved: seq<U32>, altered: Text, base: Decoded, mapped: bool)
    requires IsDelta(host, b, x, baseSum, meta, reserved) && BaseShaped(base) && |altered| == |b| && altered[100..108] == b[100..108]
    requires var zero: Text := [0, 0, 0, 0, 0, 0, 0, 0]; host.hash(altered[..100] + zero + altered[108..]) != host.hash(b[..100] + zero + b[108..])
    ensures !DeltaAccepts(host, altered, base, mapped)
  {
    hide U32At, DeltaBodyOk, WordsAt, IsDelta;
    assert Zeros(8) == [0, 0, 0, 0, 0, 0, 0, 0];
    DeltaChecksum(host, b, x, baseSum, meta, reserved);
    SameWord(b, altered, 100);
    DeltaHeaderIsHeaded(host, altered, base);
  }

  /** A written delta carries its own checksum. */
  lemma DeltaChecksum(host: Host, b: Text, x: Diff, baseSum: U64, meta: Meta, reserved: seq<U32>)
    requires IsDelta(host, b, x, baseSum, meta, reserved)
    ensures |b| >= HEADER && U64At(b, 100) == Checksum(host, b, 100)
  {
    hide U32At, U64At, Checksum, DeltaHead, AppendedTable, DeltaPoolOf, TailOf, ShapeOf, GeometryOf, DeltaLength, WordsAt;
    DeltaSum(b, baseSum, meta, GeometryOf(x), DeltaLength(ShapeOf(x)) - HEADER, Checksum(host, b, 100), reserved);
  }

  lemma DeltaSum(b: Text, baseSum: U64, meta: Meta, g: Geometry, bodyLen: nat, sum: U64, reserved: seq<U32>)
    requires |b| >= HEADER && |reserved| == 4 && WordsAt(b, 0, HEAD_WORDS) == DeltaHead(baseSum, meta, g, bodyLen, sum, reserved)
    ensures U64At(b, 100) == sum
  {
    hide U32At;
    var w := WordsAt(b, 0, HEAD_WORDS);
    assert w[25] == U32At(b, 100) && w[26] == U32At(b, 104);
    assert w[25] == sum % TWO_TO_THE_32 && w[26] == sum / TWO_TO_THE_32;
  }

  /** Where the bytes of a delta put the fields a patch or an appended record may set. */
  ghost predicate RecordBytes(b: Text, at: nat, e: Slot)
    requires at + 24 <= |b|
  {
    && (e.isDir <==> U32At(b, at) >= 0x8000_0000) && (e.used <==> U32At(b, at) / 0x4000_0000 % 2 == 1)
    && e.size == U64At(b, at + 8) && e.mtime == U32At(b, at + 16) && e.files == U32At(b, at + 20)
  }

  /** A patch names its node, by the name and parent it has in the base, and gives its fields. */
  ghost predicate PatchBytesOk(b: Text, at: nat, base: Decoded, e: Slot)
    requires at + 28 <= |b| && U32At(b, at) < |base.slots|
  {
    && |base.nameOffs| == |base.slots| && U32At(b, at + 8) == base.nameOffs[U32At(b, at)] && U32At(b, at + 4) % 0x4000_0000 == base.slots[U32At(b, at)].parent
    && RecordBytes(b, at + 4, e)
  }

  /** The stored patches at this offset are what t has at their nodes, and a node of the base no patch names is as it was. */
  ghost predicate PatchedAsStored(b: Text, patches: nat, count: nat, base: Decoded, t: Arena)
    requires patches + 28 * count <= |b| && |base.slots| <= |t|
  {
    && (forall i :: 0 <= i < |base.slots| ==> t[i].name == base.slots[i].name && t[i].parent == base.slots[i].parent)
    && (forall j: nat :: j < count ==> U32At(b, patches + 28 * j) < |base.slots| && PatchBytesOk(b, patches + 28 * j, base, t[U32At(b, patches + 28 * j)]))
    && (forall i: nat :: i < |base.slots| && (forall j: nat :: j < count ==> U32At(b, patches + 28 * j) != i) ==> t[i] == base.slots[i])
  }

  /** The nodes of t behind the first bn are the stored records. */
  ghost predicate AppendedAsStored(b: Text, bn: nat, t: Arena)
    requires bn <= |t| && 128 + 24 * (|t| - bn) <= |b|
  {
    forall i: nat :: bn <= i < |t| ==> RecordBytes(b, 128 + 24 * (i - bn), t[i]) && t[i].parent == U32At(b, 128 + 24 * (i - bn)) % 0x4000_0000
  }

  /** The tree an accepted delta gives: base nodes keep name and parent, and all else unless patched; patches and appended nodes are as stored. */
  lemma AcceptedDeltaBytes(host: Host, b: Text, base: Decoded, mapped: bool)
    requires SoundBase(host, base) && DeltaAccepts(host, b, base, mapped)
    ensures DeltaHeaded(host, b, base) && ListStart(ReadGeometry(b)) <= |b|
    ensures var t := DeltaDenotes(b, base).0; var bn := |base.slots|; var pool := 128 + U64At(b, 60) * 24; var patches := pool + U64At(b, 68);
      && |t| == bn + U64At(b, 60) && pool <= |b| && patches + 28 * U64At(b, 76) <= |b|
      && PatchedAsStored(b, patches, U64At(b, 76), base, t) && AppendedAsStored(b, bn, t)
    ensures var t, m := DeltaDenotes(b, base).0, DeltaDenotes(b, base).1;
      && m == Meta(U64At(b, 20), U64At(b, 28), U64At(b, 36), U64At(b, 44), U64At(b, 52))
      && m.files == CountKind(t, false) && m.dirs == CountKind(t, true) && m.totalSize == RootSize(t)
  {
    hide U32At, U64At, CountKind, ListsOk, EditsSound, Covered, Compacted, CanonRows, ListsFrom, NameIn, Patches, PatchesOk, PatchedAsStored, AppendedAsStored, Staged;
    DeltaHeaderIsHeaded(host, b, base);
    var g := ReadGeometry(b);
    StagedLength(b, g, base);
    PatchedBytes(b, g, base);
    AppendedBytes(b, g, base);
  }

  lemma StagedLength(b: Text, g: Geometry, base: Decoded)
    requires ListStart(g) <= |b| && BaseShaped(base)
    ensures |Staged(b, g, base)| == |base.slots| + g.n
    ensures 128 + g.n * 24 + g.poolLen + 28 * g.patches <= |b|
  {
    hide Patches, EntryName;
  }

  lemma {:induction false} PatchedBytes(b: Text, g: Geometry, base: Decoded)
    requires ListStart(g) <= |b| && BaseShaped(base) && PatchesOk(b, g, base)
    ensures 128 + g.n * 24 + g.poolLen + 28 * g.patches <= |b| && |Staged(b, g, base)| >= |base.slots|
    ensures PatchedAsStored(b, 128 + g.n * 24 + g.poolLen, g.patches, base, Staged(b, g, base))
  {
    hide U32At, U64At, Patches, PatchesOk, PatchBytesOk, PatchedSlot, BaseShaped, Entries;
    StagedLength(b, g, base);
    var t, bn, patches := Staged(b, g, base), |base.slots|, 128 + g.n * 24 + g.poolLen;
    PatchesKeepIdentity(b, g, base, g.patches);
    PatchesAre(b, g, base, g.patches);
    forall j: nat | j < g.patches ensures patches + 28 * j + 28 <= |b| && U32At(b, patches + 28 * j) < bn && PatchBytesOk(b, patches + 28 * j, base, t[U32At(b, patches + 28 * j)]) {
      PatchBytes(b, g, base, j);
    }
    forall i: nat | i in Patches(b, g, base, g.patches) ensures exists j: nat :: j < g.patches && U32At(b, patches + 28 * j) == i {
      var j: nat :| j < g.patches && PatchId(b, g, j) == i;
      assert U32At(b, patches + 28 * j) == i;
    }
  }

  lemma {:induction false} PatchBytes(b: Text, g: Geometry, base: Decoded, j: nat)
    requires ListStart(g) <= |b| && BaseShaped(base) && PatchesOk(b, g, base) && j < g.patches
    ensures var at := 128 + g.n * 24 + g.poolLen + 28 * j;
      at + 28 <= |b| && U32At(b, at) == PatchId(b, g, j) < |base.slots| && PatchBytesOk(b, at, base, Staged(b, g, base)[U32At(b, at)])
  {
    hide U32At, U64At, Patches;
    PatchesAre(b, g, base, g.patches);
    assert PatchOk(b, g, base, j);
    assert PatchStart(g) + j * PATCH == 128 + g.n * 24 + g.poolLen + 28 * j;
  }

  lemma AppendedBytes(b: Text, g: Geometry, base: Decoded)
    requires ListStart(g) <= |b| && BaseShaped(base)
    ensures |Staged(b, g, base)| == |base.slots| + g.n && 128 + 24 * g.n <= |b|
    ensures AppendedAsStored(b, |base.slots|, Staged(b, g, base))
  {
    hide U32At, U64At, Patches, EntryName, RecordBytes;
    StagedLength(b, g, base);
    var t, bn := Staged(b, g, base), |base.slots|;
    forall i: nat | bn <= i < |t|
      ensures RecordBytes(b, 128 + 24 * (i - bn), t[i]) && t[i].parent == U32At(b, 128 + 24 * (i - bn)) % 0x4000_0000
    {
      assert t[i] == Entries(b, g)[i - bn];
      EntryBytes(b, g, i - bn);
    }
  }

  lemma EntryBytes(b: Text, g: Geometry, k: nat)
    requires ListStart(g) <= |b| && k < g.n
    ensures 128 + 24 * k + 24 <= |b| && k < |Entries(b, g)|
    ensures RecordBytes(b, 128 + 24 * k, Entries(b, g)[k]) && Entries(b, g)[k].parent == U32At(b, 128 + 24 * k) % 0x4000_0000
  {
    hide U32At, U64At, EntryName;
  }

  /** The patches applied are those stored, each under its own id. */
  lemma {:induction false} PatchesAre(b: Text, g: Geometry, base: Decoded, n: nat)
    requires ListStart(g) <= |b| && n <= g.patches && BaseShaped(base) && PatchesOk(b, g, base)
    ensures forall j: nat :: j < n ==> PatchId(b, g, j) in Patches(b, g, base, n) && Patches(b, g, base, n)[PatchId(b, g, j)] == PatchedSlot(b, PatchStart(g) + j * PATCH + 4, base.slots[PatchId(b, g, j)])
    ensures forall i :: i in Patches(b, g, base, n) ==> exists j: nat :: j < n && PatchId(b, g, j) == i
  {
    hide PatchId, PatchedSlot, U32At;
    if n > 0 {
      PatchesAre(b, g, base, n - 1);
      assert PatchOk(b, g, base, n - 1);
    }
  }

  /** Each list of an accepted delta names exactly the live children of its directory, and every directory with a live appended child has one. */
  lemma {:induction false} ListedAreChildren(host: Host, b: Text, base: Decoded, mapped: bool)
    requires SoundBase(host, base) && DeltaAccepts(host, b, base, mapped)
    ensures DeltaHeaded(host, b, base) && ListStart(ReadGeometry(b)) <= |b| && ListsFrom(b, ListStart(ReadGeometry(b)), ReadGeometry(b).lists).Some?
    ensures var t := DeltaDenotes(b, base).0; var lists := ListsFrom(b, ListStart(ReadGeometry(b)), ReadGeometry(b).lists).value;
      && (forall r: nat, k: nat :: r < |lists| && Valid(t, k) && k != 0 ==> (k in lists[r].kids <==> t[k].parent == lists[r].parent))
      && (forall k: nat :: |base.slots| <= k < |t| && t[k].used ==> exists r :: 0 <= r < |lists| && lists[r].parent == t[k].parent)
  {
    hide U32At, U64At, CountKind, EditsSound, ListsFrom, NameIn, Patches, CanonRows, PatchesOk, ValidTree;
    DeltaHeaderIsHeaded(host, b, base);
    var g := ReadGeometry(b);
    var t, lists := DeltaDenotes(b, base).0, ListsFrom(b, ListStart(g), g.lists).value;
    PatchesKeepIdentity(b, g, base, g.patches);
    forall r: nat, k: nat | r < |lists| && Valid(t, k) && k != 0 ensures k in lists[r].kids <==> t[k].parent == lists[r].parent {
      assert ListOk(base, t, lists[r]);
      if k in lists[r].kids {
        var j :| 0 <= j < |lists[r].kids| && lists[r].kids[j] == k;
        assert KidOk(t, lists[r].parent, lists[r].kids[j]);
      }
      if t[k].parent == lists[r].parent {
        if k < |base.slots| {
          CompactedEdge(host, base.slots, k);
          assert k in base.rows[lists[r].parent];
        } else {
          assert Covered(t, lists, k);
        }
      }
    }
    forall k: nat | |base.slots| <= k < |t| && t[k].used ensures exists r :: 0 <= r < |lists| && lists[r].parent == t[k].parent { assert Covered(t, lists, k); }
  }
}
