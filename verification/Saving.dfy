/** From a loaded and edited tree to the files a save publishes: what the save's verdicts mean and what readers get back. */
module Saving {
  import opened Words
  import opened Slots
  import opened Edits
  import opened Bytes
  import opened ChildRows
  import opened Validation
  import opened BaseFormat
  import opened Interning
  import opened BaseImage
  import opened BaseRoundTrip
  import opened Compaction
  import opened BaseBuffer
  import opened OrderedEncoder
  import opened BaseEncoding
  import opened IncrementalValidation
  import opened DeltaFormat
  import opened DeltaImage
  import opened DeltaRoundTrip
  import opened DeltaDiff
  import opened DeltaWriter
  import opened CoverageStamp
  import opened SpillIndex
  import opened SpillTrees
  import Ancestors
  import Publication
  import IndexCache

  // -- Base names of a loaded tree ---------------------------------------------------------

  /** The offsets the encoder takes over: those of base slots nobody overrode. */
  function BaseOffsets(base: Decoded, overrides: map<nat, Slot>, appended: nat): (r: seq<Option<U32>>)
    requires |base.nameOffs| == |base.slots| && forall i :: 0 <= i < |base.nameOffs| ==> base.nameOffs[i] <= MAX_U32
    ensures |r| == |base.slots| + appended
  {
    seq(|base.slots| + appended, (i: nat) requires i < |base.slots| + appended =>
      if i < |base.slots| && i !in overrides then Some(base.nameOffs[i] as U32) else None)
  }

  /** Slots read from an accepted file carry offsets the encoder may rely on: equal offsets mean equal names. */
  lemma LoadedOffsetsHold(host: Host, b: Text, mount: Text, overrides: map<nat, Slot>, entries: Arena)
    requires Accepts(host, b, mount) && InBase(BaseView(Denotes(b)), overrides)
    ensures var base := Denotes(b);
      && |base.nameOffs| == |base.slots| && (forall i :: 0 <= i < |base.nameOffs| ==> base.nameOffs[i] <= MAX_U32)
      && BaseOffsetsOk(Edited(BaseView(base), overrides, entries), BaseOffsets(base, overrides, |entries|))
  {
    hide HeaderOk, BodyOk, NameIn, ReadMeta, CanonRows, InFile, U32At, U64At, BitsParent;
    AcceptedInFile(host, b, mount);
    var l, base := ReadLayout(b), Denotes(b);
    forall i: nat | i < |base.slots| ensures base.slots[i].name == NameOr(NameIn(Pool(b, l), base.nameOffs[i])) {
      assert base.slots[i] == RecordAt(b, l, i);
    }
  }

  lemma AcceptedInFile(host: Host, b: Text, mount: Text)
    requires Accepts(host, b, mount)
    ensures |b| >= HEADER && InFile(ReadLayout(b), |b|) && 0 < ReadLayout(b).n <= PARENT_LIMIT
  {
    hide BodyOk;
  }

  // -- Deltas, from the tree to the reader ----------------------------------------------------

  lemma DiffIsFromTree(host: Host, base: Decoded, t: Arena)
    requires SoundBase(host, base) && ValidTree(host, t, true) && Identified(base, t)
    requires forall i :: 0 <= i < |base.nameOffs| ==> base.nameOffs[i] <= MAX_U32
    ensures |base.slots| <= |t| <= PARENT_LIMIT && FromTree(host, base, DiffOf(base, t))
  {
    hide Compacted, CanonRows, ChangedIds, NewLists;
  }

  lemma {:induction false} PoolLength(names: seq<Name>)
    requires ShortNames(names)
    ensures |InternAll(names).pool| <= (MAX_U16 + 2) * |names|
  {
    if names != [] { PoolLength(names[..|names| - 1]); }
  }

  lemma {:induction false} ListTableLength(lists: seq<KidList>, m: nat)
    requires forall i :: 0 <= i < |lists| ==> |lists[i].kids| <= PARENT_LIMIT
    ensures |ListTable(lists)| <= (PARENT_LIMIT + 2) * |lists|
  {
    if lists != [] { ListTableLength(lists[1..], m); }
  }

  lemma {:induction false} NewListCount(t: Arena, bn: nat, m: nat)
    requires m <= |t| <= PARENT_LIMIT
    ensures |NewLists(t, bn, m)| <= m
  {
    hide HasNewChild, ChildIds;
    if m > 0 { NewListCount(t, bn, m - 1); }
  }

  /** The delta of a valid tree always has a place to go: its length fits 64 bits. */
  lemma DiffIsWritable(host: Host, base: Decoded, t: Arena)
    requires SoundBase(host, base) && ValidTree(host, t, true) && Identified(base, t)
    ensures |base.slots| <= |t| <= PARENT_LIMIT && Writable(DiffOf(base, t)) && WordsFit(DiffOf(base, t).lists)
  {
    hide Compacted, CanonRows, ChangedIds, NewLists, InternAll, ListTable, ChildIds, HasNewChild, PatchTable, LinkOk;
    var x := DiffOf(base, t);
    assert Narrow(t);
    AppendedAreNarrow(x);
    PoolLength(NamesOf(t[x.bn..]));
    NewListsAre(t, x.bn, |t|);
    NewListCount(t, x.bn, |t|);
    forall i | 0 <= i < |x.lists| ensures |x.lists[i].kids| <= PARENT_LIMIT { AscendingBound(x.lists[i].kids, |t|); }
    ListTableLength(x.lists, |t|);
    AscendingBound(x.ids, x.bn);
    NewListsFit(t, x.bn);
  }

  /** The delta of a tree against its base, or nothing when the tree cannot be written as one. */
  method EncodeDiskIndexDelta(host: Host, base: Decoded, t: Arena, meta: Meta) returns (ok: bool, b: array<Byte>)
    requires SoundBase(host, base) && |base.slots| > 0
    ensures ok <==> ValidTree(host, t, true) && Identified(base, t)
    ensures ok ==> |base.slots| <= |t| <= PARENT_LIMIT && IsDelta(host, b[..], DiffOf(base, t), base.checksum, meta, NoWords(4))
    ensures fresh(b)
  {
    hide SoundBase, ValidTree, Identified, DiffOf, IsDelta, Writable, WordsFit;
    b := new Byte[0];
    var x := DiffTree(host, base, t);
    ok := x.Some?;
    if ok {
      DiffIsWritable(host, base, t);
      b := WriteDelta(host, x.value, base.checksum, meta);
    }
  }

  /**
   * Whatever delta was written for a tree over an accepted base, in either way and stamped or not, a reader of that base
   * gets the very tree back. It applies exactly when the checksum is not zero, the event does not go back and the totals are the tree's.
   */
  lemma DeltaComesBack(host: Host, file: Text, mount: Text, t: Arena, b: Text, meta: Meta, reserved: seq<U32>, mapped: bool)
    requires Accepts(host, file, mount) && ValidTree(host, t, true) && Identified(Denotes(file), t)
    ensures SoundBase(host, Denotes(file)) && |Denotes(file).slots| <= |t| <= PARENT_LIMIT && Writable(DiffOf(Denotes(file), t))
    ensures IsDelta(host, b, DiffOf(Denotes(file), t), Denotes(file).checksum, meta, reserved) && |DeltaPoolOf(DiffOf(Denotes(file), t))| <= MAX_U32 ==>
      && |b| >= HEADER && ListStart(ReadGeometry(b)) <= |b| && DeltaDenotes(b, Denotes(file)) == (t, meta)
      && (DeltaAccepts(host, b, Denotes(file), mapped) <==>
          && Checksum(host, b, 100) != 0 && meta.lastEvent >= Denotes(file).meta.lastEvent
          && meta.files == CountKind(t, false) && meta.dirs == CountKind(t, true) && meta.totalSize == RootSize(t))
  {
    hide Accepts, ValidTree, Identified, IsDelta, Denotes, DiffOf, DeltaAccepts, DeltaDenotes, CountKind, InternAll, PatchTable, ListTable, InFile, ReadLayout;
    AcceptedInFile(host, file, mount);
    var base := Denotes(file);
    AcceptedBaseIsSound(host, file, mount);
    OffsetsAreWords(host, file, mount);
    DiffIsFromTree(host, base, t);
    DiffIsWritable(host, base, t);
    var x := DiffOf(base, t);
    ShapedHere(host, base);
    if IsDelta(host, b, x, base.checksum, meta, reserved) && |DeltaPoolOf(x)| <= MAX_U32 {
      DeltaRoundTrip.DeltaRoundTrip(host, base, b, x, base.checksum, meta, reserved, mapped);
      DiffTreeIs(base, t);
    }
  }

  lemma OffsetsAreWords(host: Host, b: Text, mount: Text)
    requires Accepts(host, b, mount)
    ensures forall i :: 0 <= i < |Denotes(b).nameOffs| ==> Denotes(b).nameOffs[i] <= MAX_U32
  {
    hide HeaderOk, BodyOk, InFile, CanonRows;
    AcceptedInFile(host, b, mount);
  }

  lemma ShapedHere(host: Host, base: Decoded)
    requires SoundBase(host, base)
    ensures BaseShaped(base)
  {
  }

  lemma DiffTreeIs(base: Decoded, t: Arena)
    requires |base.slots| <= |t| <= PARENT_LIMIT
    ensures DiffOf(base, t).t == t
  {
  }

  // -- Totals across a save and a load -------------------------------------------------------

  /** Exact totals survive a save as a base: what is loaded is a tree refreshes may start from. */
  lemma LoadedBaseIsExact(host: Host, s: Arena, order: seq<nat>, b: Text, v: Volume, meta: Meta, reserved: seq<U32>)
    requires ValidTree(host, s, false) && Ordering(s, order) && IsImage(host, b, v, meta, Compact(s, order), reserved) && Exact(s)
    ensures |b| >= HEADER && InFile(ReadLayout(b), |b|) && Exact(Denotes(b).slots)
  {
    hide *;
    RoundTrip(host, s, order, b, v, meta, reserved);
    CompactKeepsExact(host, s, order);
  }

  /** And as a delta over an accepted base, written in either way. */
  lemma LoadedDeltaIsExact(host: Host, file: Text, mount: Text, t: Arena, b: Text, meta: Meta, reserved: seq<U32>)
    requires Accepts(host, file, mount) && ValidTree(host, t, true) && Identified(Denotes(file), t) && Exact(t)
    requires |Denotes(file).slots| <= |t| <= PARENT_LIMIT && IsDelta(host, b, DiffOf(Denotes(file), t), Denotes(file).checksum, meta, reserved)
    requires |DeltaPoolOf(DiffOf(Denotes(file), t))| <= MAX_U32
    ensures |b| >= HEADER && BaseShaped(Denotes(file)) && ListStart(ReadGeometry(b)) <= |b| && Exact(DeltaDenotes(b, Denotes(file)).0)
  {
    hide *;
    AcceptedInFile(host, file, mount);
    AcceptedBaseIsSound(host, file, mount);
    ShapedHere(host, Denotes(file));
    DeltaComesBack(host, file, mount, t, b, meta, reserved, true);
  }

  // -- What publications rename in -------------------------------------------------------------

  /** A base file as publication sees it: its checksum and event, whether it decodes, and the coverage it names. */
  ghost function BaseFileOf(host: Host, b: Text, mount: Text, tree: Publication.Tree): (f: Publication.BaseFile)
    requires |b| >= HEADER
  {
    Publication.BaseFile(U64At(b, 72), ReadMeta(b).lastEvent, tree, Accepts(host, b, mount), BindingIn(b, 96))
  }

  ghost function DeltaFileOf(host: Host, b: Text, base: Decoded, tree: Publication.Tree): (f: Publication.DeltaFile)
    requires |b| >= HEADER && BaseShaped(base)
  {
    Publication.DeltaFile(U64At(b, 100), U64At(b, 12), ReadDeltaMeta(b).lastEvent, tree, b[..8] == DELTA_MAGIC, DeltaAccepts(host, b, base, true), BindingIn(b, 112))
  }

  /** What the validators and the codec say of a snapshot that edits a loaded base, another base being perhaps on disk. */
  ghost function SnapshotOf(host: Host, v: Volume, order: seq<nat>, base: Decoded, onDisk: Decoded, overrides: map<nat, Slot>, entries: Arena, kids: Rows,
                            tree: Publication.Tree, blocked: seq<Publication.Path>, fastCount: nat): (s: IndexCache.Snapshot)
    requires InBase(BaseView(base), overrides) && |kids| >= |base.slots|
  {
    var t := Edited(BaseView(base), overrides, entries);
    IndexCache.Snapshot(tree, blocked, Some((base.checksum, base.meta.lastEvent)),
      ValidTree(host, t, false), EditsOk(host, BaseView(base), overrides, entries, kids),
      ValidTree(host, t, false) && Ordering(t, order) && Storable(Compact(t, order)) && Fits(v, Compact(t, order)),
      fastCount, sum => if sum == onDisk.checksum then PatchSize(host, onDisk, t) else None)
  }

  /** The entries of a tree's patch of a base: overrides, appended nodes and listed children, if it can be patched. */
  ghost function PatchSize(host: Host, base: Decoded, t: Arena): (r: Option<nat>)
  {
    if ValidTree(host, t, true) && Identified(base, t) && |base.slots| <= |t| <= PARENT_LIMIT
    then Some(|DiffOf(base, t).ids| + |t| - |base.slots| + KidCount(DiffOf(base, t).lists)) else None
  }

  function KidCount(lists: seq<KidList>): (n: nat)
  {
    if lists == [] then 0 else KidCount(lists[..|lists| - 1]) + |lists[|lists| - 1].kids|
  }

  /** On trees the editing operations keep, the fast verdict implies the full ones, so falling back never refuses what the fast path took. */
  lemma FastVerdictIsFull(host: Host, v: Volume, order: seq<nat>, base: Decoded, overrides: map<nat, Slot>, entries: Arena, kids: Rows, tree: Publication.Tree, blocked: seq<Publication.Path>, fastCount: nat)
    requires SoundBase(host, base) && InBase(BaseView(base), overrides) && |kids| >= |base.slots|
    requires var t := Edited(BaseView(base), overrides, entries); Ancestors.WellFormed(t) && RowsFit(t, kids)
    ensures var s := SnapshotOf(host, v, order, base, base, overrides, entries, kids, tree, blocked, fastCount);
      s.editsOk ==> s.valid && s.patch(base.checksum).Some?
  {
    hide EditsOk, Ordering, Compact, Fits, Compacted, RowsFit, DiffOf, KidCount;
    if EditsOk(host, BaseView(base), overrides, entries, kids) {
      EditedTreesQualify(host, BaseView(base), overrides, entries, kids);
      FastIsFull(host, base, overrides, entries, kids);
      DiffIsWritable(host, base, Edited(BaseView(base), overrides, entries));
      assert SnapshotOf(host, v, order, base, base, overrides, entries, kids, tree, blocked, fastCount).patch(base.checksum) == PatchSize(host, base, Edited(BaseView(base), overrides, entries));
    }
  }

  /** A base written and stamped from a snapshot that validates and encodes is the file its publication renames in. */
  lemma PublishedBase(host: Host, s: Arena, order: seq<nat>, b: Text, v: Volume, meta: Meta, digest: U64, salt: U64, unstamped: seq<U32>, tree: Publication.Tree)
    requires ValidTree(host, s, false) && Ordering(s, order) && |unstamped| == 8
    requires IsImage(host, b, v, meta, Compact(s, order), CoverageWords(digest, salt, unstamped))
    requires Checksum(host, b, 72) != 0 && host.utf8(v.mount + v.name) && meta.files == CountKind(s, false) && meta.dirs == CountKind(s, true)
    ensures |b| >= HEADER && BaseFileOf(host, b, v.mount, tree) == Publication.BaseFile(Checksum(host, b, 72), meta.lastEvent, tree, true, Publication.Bound(digest))
  {
    hide ValidTree, Ordering, Compact, Accepts, Checksum, CountKind, HeadTable, RecordTable, StartTable, Flatten, Middle, CoverageWords, BindingIn, InFile, ReadLayout, WordsAt, U64At, ReadMeta;
    var c, reserved := Compact(s, order), CoverageWords(digest, salt, unstamped);
    RoundTrip(host, s, order, b, v, meta, reserved);
    ImageHeadFits(v, c);
    BaseBinding(b, ImageLayout(v, c), meta, Checksum(host, b, 72), reserved, digest, salt, unstamped);
  }

  /** So is the base streamed from a sound spill. */
  lemma PublishedSpill(host: Host, b: Text, v: Volume, meta: Meta, rootName: Name, records: seq<Record>, pool: Text, offs: seq<nat>, digest: U64, salt: U64, unstamped: seq<U32>, tree: Publication.Tree)
    requires SpillOk(host, records) && ShortRecords(rootName, records) && host.utf8(rootName) && BytesBelow(SpillSlots(rootName, 0, records), 0) <= MAX_U64
    requires |unstamped| == 8 && Backward(records)
    requires IsSpillFile(host, b, v, meta, SpillTree(rootName, records), Frame(records), pool, offs, CoverageWords(digest, salt, unstamped))
    requires meta.files == CountKind(SpillTree(rootName, records), false) && meta.dirs == CountKind(SpillTree(rootName, records), true)
    requires |b| >= HEADER && Checksum(host, b, 72) != 0 && host.utf8(v.mount + v.name)
    ensures BaseFileOf(host, b, v.mount, tree) == Publication.BaseFile(Checksum(host, b, 72), meta.lastEvent, tree, true, Publication.Bound(digest))
  {
    hide Accepts, Checksum, CountKind, HeadTable, RecordTable, StartTable, Flatten, CoverageWords, BindingIn, InFile, ReadLayout, WordsAt, U64At, ReadMeta, SpillTree, Frame, SpillSlots, BytesBelow, Labels, NameIn, SpillLayout, EntrySound, HeadFits;
    var t, reserved, l := SpillTree(rootName, records), CoverageWords(digest, salt, unstamped), SpillLayout(v, |SpillTree(rootName, records)|, |pool|);
    StreamedReadsBack(host, b, v, meta, rootName, records, pool, offs, reserved);
    SpillHeader(host, b, v, meta, t, Frame(records), pool, offs, reserved);
    SpillSections(v, |t|, |pool|, |b|);
    SpillHeadWords(host, b, v, meta, t, Frame(records), pool, offs, reserved);
    BaseBinding(b, l, meta, Checksum(host, b, 72), reserved, digest, salt, unstamped);
  }

  lemma SpillHeadWords(host: Host, b: Text, v: Volume, meta: Meta, t: Arena, c: Arena, pool: Text, offs: seq<nat>, reserved: seq<U32>)
    requires IsSpillFile(host, b, v, meta, t, c, pool, offs, reserved) && |t| <= PARENT_LIMIT && |b| >= HEADER
    ensures HeadFits(SpillLayout(v, |t|, |pool|)) && WordsAt(b, 0, HEAD_WORDS) == HeadTable(SpillLayout(v, |t|, |pool|), meta, Checksum(host, b, 72), reserved)
  {
    hide Checksum, HeadTable, RecordTable, StartTable, Flatten, Labels, NameIn, WordsAt, SpillLayout;
    var l := SpillLayout(v, |t|, |pool|);
    SpillSections(v, |t|, |pool|, |b|);
    PrefixWords(b, FileLength(l), 0, HEAD_WORDS);
  }

  /** A delta written in either way and stamped, for a tree over an accepted base, is the file its publication renames in. */
  lemma PublishedDelta(host: Host, file: Text, mount: Text, t: Arena, b: Text, meta: Meta, digest: U64, tree: Publication.Tree)
    requires Accepts(host, file, mount) && ValidTree(host, t, true) && Identified(Denotes(file), t)
    requires |Denotes(file).slots| <= |t| <= PARENT_LIMIT && IsDelta(host, b, DiffOf(Denotes(file), t), Denotes(file).checksum, meta, DeltaCoverageWords(digest))
    requires |DeltaPoolOf(DiffOf(Denotes(file), t))| <= MAX_U32 && Checksum(host, b, 100) != 0 && meta.lastEvent >= Denotes(file).meta.lastEvent
    requires meta.files == CountKind(t, false) && meta.dirs == CountKind(t, true) && meta.totalSize == RootSize(t)
    ensures |b| >= HEADER && BaseShaped(Denotes(file))
    ensures DeltaFileOf(host, b, Denotes(file), tree)
         == Publication.DeltaFile(Checksum(host, b, 100), Denotes(file).checksum, meta.lastEvent, tree, true, true, Publication.Bound(digest))
  {
    hide Accepts, ValidTree, Identified, Denotes, DeltaBodyOk, Staged, DeltaCoverageWords, BindingIn, CountKind, Checksum, DiffOf, U64At, U32At, ReadGeometry, DeltaHead, AppendedTable, DeltaPoolOf, TailOf, ReadDeltaMeta;
    AcceptedInFile(host, file, mount);
    AcceptedBaseIsSound(host, file, mount);
    DeltaComesBack(host, file, mount, t, b, meta, DeltaCoverageWords(digest), true);
    ShapedHere(host, Denotes(file));
    var x := DiffOf(Denotes(file), t);
    assert WordsAt(b, 0, HEAD_WORDS) == DeltaViewOf(b, ShapeOf(x)).head;
    DeltaBinding(b, Denotes(file).checksum, meta, GeometryOf(x), DeltaLength(ShapeOf(x)) - HEADER, Checksum(host, b, 100), DeltaCoverageWords(digest), digest);
  }
}
