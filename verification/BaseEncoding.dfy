/** Writing a tree as a base file: the two encoders together, and what reading the result gives. */
module BaseEncoding {
  import opened Words
  import opened Slots
  import opened Bytes
  import opened ChildRows
  import opened Validation
  import opened Grafting
  import opened BaseFormat
  import opened Interning
  import opened BaseImage
  import opened BaseRoundTrip
  import opened Compaction
  import opened BaseBuffer
  import opened OrderedEncoder
  import opened UnorderedEncoder

  /** Encodes any valid tree: in slot order when parents come first, depth first otherwise. */
  method EncodeDiskIndex(host: Host, s: Arena, baseOff: seq<Option<U32>>, v: Volume, meta: Meta) returns (ok: bool, b: array<Byte>, ghost order: seq<nat>)
    requires ValidTree(host, s, false) && BaseOffsetsOk(s, baseOff)
    ensures Ordering(s, order) && Storable(Compact(s, order)) && (ParentFirst(s) ==> order == LiveIds(s, |s|))
    ensures (ok <==> Fits(v, Compact(s, order))) && fresh(b)
    ensures ok ==> IsImage(host, b[..], v, meta, Compact(s, order), NoWords(8))
  {
    hide ValidTree, Ordering, Compact, IsImage, Fits, Storable, ParentFirst, LiveIds, BaseOffsetsOk;
    var ordered;
    ordered, ok, b := EncodeOrdered(host, s, baseOff, v, meta);
    order := LiveIds(s, |s|);
    if !ordered {
      ok, b, order := EncodeUnordered(host, s, v, meta);
    }
  }

  // -- One tree, one file -----------------------------------------------------------------

  lemma SameOutsideChecksum(b: Text, c: Text, l: Layout, meta: Meta, x: U64, y: U64, reserved: seq<U32>)
    requires Packed(l) && |b| == |c| == FileLength(l) <= MAX_U32 && l.po <= l.eo && l.poolLen <= l.eo && l.mountLen + l.nameLen <= l.po && |reserved| == 8
    requires WordsAt(b, 0, HEAD_WORDS) == HeadTable(l, meta, x, reserved) && WordsAt(c, 0, HEAD_WORDS) == HeadTable(l, meta, y, reserved)
    requires ViewOf(b, l) == ViewOf(c, l).(head := ViewOf(b, l).head)
    ensures Splice(b, 72, Zeros(8)) == Splice(c, 72, Zeros(8))
  {
    hide WordsAt, ViewOf;
    var b', c' := Splice(b, 72, Zeros(8)), Splice(c, 72, Zeros(8));
    ZeroedView(b, l);
    ZeroedView(c, l);
    HeadDiffers(l, meta, x, y, reserved);
    ViewIsAll(b', c', l);
  }

  lemma HeadDiffers(l: Layout, meta: Meta, x: U64, y: U64, reserved: seq<U32>)
    requires Packed(l) && FileLength(l) <= MAX_U32 && l.po <= l.eo && l.poolLen <= l.eo && l.mountLen + l.nameLen <= l.po && |reserved| == 8
    ensures HeadTable(l, meta, x, reserved)[18 := 0][19 := 0] == HeadTable(l, meta, y, reserved)[18 := 0][19 := 0]
  {
    var p, q := HeadTable(l, meta, x, reserved)[18 := 0][19 := 0], HeadTable(l, meta, y, reserved)[18 := 0][19 := 0];
    forall k | 0 <= k < HEAD_WORDS ensures p[k] == q[k] {
    }
  }

  lemma ZeroedView(b: Text, l: Layout)
    requires Packed(l) && |b| == FileLength(l)
    ensures ViewOf(Splice(b, 72, Zeros(8)), l) == ViewOf(b, l).(head := WordsAt(b, 0, HEAD_WORDS)[18 := 0][19 := 0])
  {
    hide WordsAt;
    PutHeadView(b, l, 18, 0);
    PutHeadView(Splice(b, 72, LE32(0)), l, 19, 0);
    SplicePair(b, 72, LE32(0), LE32(0));
    assert Zeros(8) == LE32(0) + LE32(0);
  }

  /** A tree has one file: whatever encoder wrote it, the bytes are the same. */
  lemma ImageIsUnique(host: Host, b: Text, b': Text, v: Volume, meta: Meta, c: Arena, reserved: seq<U32>)
    requires IsImage(host, b, v, meta, c, reserved) && IsImage(host, b', v, meta, c, reserved)
    ensures b == b'
  {
    hide WordsAt, RecordTable, StartTable, Flatten, InternAll, HeadTable;
    var l := ImageLayout(v, c);
    SameOutsideChecksum(b, b', l, meta, Checksum(host, b, 72), Checksum(host, b', 72), reserved);
    ViewIsAll(b, b', l);
  }

  // -- The round trip ---------------------------------------------------------------------------

  /** Reading a file written from a valid tree gives the tree compacted; it is accepted
      exactly when its checksum is not zero, its labels are UTF-8 and its counts are the tree's. */
  lemma RoundTrip(host: Host, s: Arena, order: seq<nat>, b: Text, v: Volume, meta: Meta, reserved: seq<U32>)
    requires ValidTree(host, s, false) && Ordering(s, order) && IsImage(host, b, v, meta, Compact(s, order), reserved)
    ensures |b| >= HEADER && InFile(ReadLayout(b), |b|)
    ensures Denotes(b) == Decoded(Compact(s, order), CanonRows(Compact(s, order)), Offsets(NamesOf(Compact(s, order))), meta, Checksum(host, b, 72))
    ensures forall m: Text :: Accepts(host, b, m) <==>
            m == v.mount && Checksum(host, b, 72) != 0 && host.utf8(v.mount + v.name) && meta.files == CountKind(s, false) && meta.dirs == CountKind(s, true)
  {
    hide ValidTree, Ordering, Compact, IsImage, CountKind, Accepts, Denotes, InFile, ReadLayout, Checksum;
    CompactIsCompacted(host, s, order);
    CompactCounts(host, s, order, false);
    CompactCounts(host, s, order, true);
    WrittenReadsBack(host, b, v, meta, Compact(s, order), reserved);
  }
}
