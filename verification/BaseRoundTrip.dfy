/** Reading back a base file gives the tree it was written from. */
module BaseRoundTrip {
  import opened Words
  import opened Forest
  import opened Slots
  import opened Bytes
  import opened ChildRows
  import opened Validation
  import opened BaseFormat
  import opened Interning
  import opened BaseImage

  /** A tree in the form files hold: valid, parent-first, nothing dead. */
  ghost predicate Compacted(host: Host, c: Arena)
  {
    ValidTree(host, c, true) && forall i :: 0 <= i < |c| ==> c[i].used
  }

  lemma CompactedIsStorable(host: Host, c: Arena)
    requires Compacted(host, c)
    ensures Storable(c)
  {
    forall i | 0 <= i < |c| ensures |c[i].name| <= MAX_U16 && c[i].parent < PARENT_LIMIT {
      assert Representable(host, c[i]);
    }
  }

  // -- The child table ------------------------------------------------------------------

  lemma CompactedEdge(host: Host, c: Arena, i: nat)
    requires Compacted(host, c) && i < |c|
    ensures i > 0 ==> HeapEdge(c, i) == Some(c[i].parent as nat) && c[i].parent < i
  {
    if i > 0 { assert LinkOk(host, c, i, true); }
  }

  lemma {:induction false} RowMembers(host: Host, c: Arena, p: nat)
    requires Compacted(host, c) && p < |c|
    ensures forall k: nat :: k in ChildIds(c, p, |c|) <==> 0 < k < |c| && c[k].parent == p
    ensures Distinct(ChildIds(c, p, |c|))
  {
    forall k: nat | k < |c| ensures k in ChildIds(c, p, |c|) <==> 0 < k && c[k].parent == p {
      CompactedEdge(host, c, k);
    }
  }

  lemma DistinctConcat(a: seq<nat>, b: seq<nat>)
    requires Distinct(a) && Distinct(b) && forall k :: k in a ==> k !in b
    ensures Distinct(a + b)
  {
    forall i: nat, j: nat | i < j < |a + b| ensures (a + b)[i] != (a + b)[j] {
      if i < |a| <= j {
        assert a[i] in a && b[j - |a|] in b;
      }
    }
  }

  /** The first p rows list the nodes whose parent is among the first p, each once. */
  lemma {:induction false} FlattenMembers(host: Host, c: Arena, p: nat)
    requires Compacted(host, c) && p <= |c|
    ensures Distinct(Flatten(c, p))
    ensures forall k :: k in Flatten(c, p) <==> 0 < k < |c| && c[k].parent < p
  {
    hide ValidTree, ChildIds;
    if p > 0 {
      FlattenMembers(host, c, p - 1);
      RowMembers(host, c, p - 1);
      DistinctConcat(Flatten(c, p - 1), ChildIds(c, p - 1, |c|));
    }
  }

  lemma CompactedHasRoot(host: Host, c: Arena)
    requires Compacted(host, c)
    ensures |c| > 0
  {
  }

  lemma NonRootCount(flat: seq<nat>, n: nat)
    requires n > 0 && Distinct(flat) && forall k: nat :: k in flat <==> 0 < k < n
    ensures |flat| == n - 1
  {
    hide Elements, Range;
    DistinctSize(flat);
    assert Elements(flat) == Range(n) - {0};
  }

  /** One entry for every node but the root. */
  lemma {:induction false} FlattenSize(host: Host, c: Arena)
    requires Compacted(host, c)
    ensures |Flatten(c, |c|)| == |c| - 1
  {
    hide ValidTree, Flatten;
    var flat := Flatten(c, |c|);
    FlattenMembers(host, c, |c|);
    CompactedHasRoot(host, c);
    forall k: nat | 0 < k < |c| ensures c[k].parent < |c| { CompactedEdge(host, c, k); }
    NonRootCount(flat, |c|);
  }

  lemma {:induction false} FlattenGrows(c: Arena, p: nat, q: nat)
    requires p <= q <= |c|
    ensures Flatten(c, p) <= Flatten(c, q)
  {
    if p < q { FlattenGrows(c, p, q - 1); }
  }

  /** The part of the table between two starts is the row. */
  lemma {:induction false} FlattenRow(c: Arena, p: nat)
    requires p < |c|
    ensures |Flatten(c, p)| <= |Flatten(c, p + 1)| <= |Flatten(c, |c|)|
    ensures Flatten(c, |c|)[|Flatten(c, p)|..|Flatten(c, p + 1)|] == ChildIds(c, p, |c|)
  {
    FlattenGrows(c, p + 1, |c|);
    assert Flatten(c, p + 1) == Flatten(c, |c|)[..|Flatten(c, p + 1)|];
  }

  lemma {:induction false} EntryIsListed(host: Host, c: Arena, starts: seq<U32>, flat: seq<U32>, i: nat, j: nat)
    requires Compacted(host, c) && starts == StartTable(c) && flat == Flatten(c, |c|)
    requires i < |c| && starts[i] <= j < starts[i + 1] <= |flat|
    ensures Listed(c, flat, i, j)
  {
    hide ValidTree, Flatten, ChildIds;
    FlattenRow(c, i);
    RowMembers(host, c, i);
    var row := ChildIds(c, i, |c|);
    assert flat[starts[i]..starts[i + 1]][j - starts[i]] == flat[j];
    assert flat[j] in row;
  }

  lemma {:induction false} TableIsSound(host: Host, c: Arena, starts: seq<U32>, flat: seq<U32>)
    requires Compacted(host, c) && starts == StartTable(c) && flat == Flatten(c, |c|)
    ensures RowsOk(c, starts, flat)
  {
    hide ValidTree, Flatten, ChildIds, Listed;
    assert Flatten(c, 0) == [] by { FlattenNothing(c); }
    FlattenMembers(host, c, |c|);
    forall i {:trigger starts[i]} | 0 <= i < |c| ensures starts[i] <= starts[i + 1] <= |flat| {
      FlattenRow(c, i);
    }
    forall i: nat, j: nat {:trigger Listed(c, flat, i, j)} | i < |c| && starts[i] <= j < starts[i + 1] <= |flat| ensures Listed(c, flat, i, j) {
      EntryIsListed(host, c, starts, flat, i, j);
    }
    forall k | 0 < k < |c| ensures k in flat { CompactedEdge(host, c, k); }
  }

  lemma {:induction false} FlattenNothing(c: Arena)
    ensures Flatten(c, 0) == []
  {
  }

  // -- Header and sections -----------------------------------------------------------------

  lemma HeaderReads(b: Text, l: Layout, meta: Meta, checksum: U64, reserved: seq<U32>)
    requires |b| >= HEADER && HeadFits(l) && |reserved| == 8
    requires WordsAt(b, 0, HEAD_WORDS) == HeadTable(l, meta, checksum, reserved)
    ensures ReadLayout(b) == l && ReadMeta(b) == meta && U64At(b, 72) == checksum
    ensures U32At(b, 8) == 7 && b[..8] == BASE_MAGIC
  {
    hide U32At;
    var w := WordsAt(b, 0, HEAD_WORDS);
    assert forall k :: 0 <= k < HEAD_WORDS ==> w[k] == U32At(b, 4 * k);
    assert w[0] == U32At(b, 0) && w[1] == U32At(b, 4) && w[2] == U32At(b, 8) && w[3] == U32At(b, 12) && w[4] == U32At(b, 16);
    assert w[5] == U32At(b, 20) && w[6] == U32At(b, 24) && w[7] == U32At(b, 28) && w[8] == U32At(b, 32) && w[9] == U32At(b, 36);
    assert w[10] == U32At(b, 40) && w[11] == U32At(b, 44) && w[12] == U32At(b, 48) && w[13] == U32At(b, 52) && w[14] == U32At(b, 56);
    assert w[15] == U32At(b, 60) && w[16] == U32At(b, 64) && w[17] == U32At(b, 68) && w[18] == U32At(b, 72) && w[19] == U32At(b, 76);
    assert w[20] == U32At(b, 80) && w[21] == U32At(b, 84) && w[22] == U32At(b, 88) && w[23] == U32At(b, 92);
    MagicReads(b);
  }

  lemma MagicReads(b: Text)
    requires |b| >= 8
    ensures U32At(b, 0) == MAGIC_LOW && U32At(b, 4) == MAGIC_HIGH ==> b[..8] == BASE_MAGIC
  {
    if U32At(b, 0) == MAGIC_LOW && U32At(b, 4) == MAGIC_HIGH {
      U32Bytes(b, 0);
      U32Bytes(b, 4);
      Digit32(81, 67, 73, 68);
      Digit32(88, 86, 48, 55);
      assert b[..8] == b[0..4] + b[4..8];
    }
  }

  /** Ten facts make five sections disjoint. */
  lemma FiveApart(a: Section, b: Section, c: Section, d: Section, e: Section)
    requires Apart(a, b) && Apart(a, c) && Apart(a, d) && Apart(a, e) && Apart(b, c) && Apart(b, d) && Apart(b, e) && Apart(c, d) && Apart(c, e) && Apart(d, e)
    ensures Disjoint([a, b, c, d, e])
  {
    hide Apart;
  }

  lemma SectionsAreSound(l: Layout)
    requires Packed(l) && l.n <= PARENT_LIMIT && l.eo % 8 == 0
    requires HEADER + l.mountLen + l.nameLen <= l.po && l.po + l.poolLen <= l.eo
    ensures Aligned(l) && InFile(l, FileLength(l)) && Disjoint(Sections(l))
  {
    FiveApart(Section(0, HEADER + l.mountLen + l.nameLen), Section(l.po, l.poolLen), Section(l.eo, l.n * 24), Section(l.cs, (l.n + 1) * 4), Section(l.ca, l.kidCount * 4));
  }

  lemma MiddleReads(b: Text, l: Layout, v: Volume, pool: Text)
    requires HEADER + |v.mount| + |v.name| <= l.po && l.po + |pool| <= l.eo <= |b| && b[HEADER..l.eo] == Middle(l, v, pool)
    ensures b[HEADER..HEADER + |v.mount|] == v.mount && b[HEADER..HEADER + |v.mount| + |v.name|] == v.mount + v.name
    ensures b[l.po..l.po + |pool|] == pool
  {
    var m := b[HEADER..l.eo];
    var ml, nl, pad := |v.mount|, |v.name|, l.po - HEADER;
    SubSlice(b, HEADER, l.eo, 0, ml);
    SubSlice(b, HEADER, l.eo, 0, ml + nl);
    SubSlice(b, HEADER, l.eo, pad, pad + |pool|);
    assert m[0..ml] == v.mount;
    assert m[0..ml + nl] == v.mount + v.name;
    assert m[pad..pad + |pool|] == pool;
  }

  lemma SubSlice(b: Text, lo: nat, hi: nat, x: nat, y: nat)
    requires lo <= hi <= |b| && x <= y <= hi - lo
    ensures b[lo..hi][x..y] == b[lo + x..lo + y]
  {
    forall i | 0 <= i < y - x ensures b[lo..hi][x..y][i] == b[lo + x..lo + y][i] {
      assert b[lo..hi][x + i] == b[lo + x + i];
    }
  }

  // -- Records ---------------------------------------------------------------------------------

  lemma RecordReads(b: Text, at: nat, e: Slot, off: nat, w: seq<U32>, i: nat)
    requires e.parent < PARENT_LIMIT && e.mtime <= MAX_U32 && e.files <= MAX_U32 && off <= MAX_U32
    requires at + 4 * |w| <= |b| && w == WordsAt(b, at, |w|) && 6 * i + 6 <= |w|
    requires forall k: nat :: k < 6 ==> w[6 * i + k] == RecordWord(e, off, k)
    ensures SlotIn(b, at + i * 24, e.name) == e && U32At(b, at + i * 24 + 4) == off && BitsUsed(U32At(b, at + i * 24)) == e.used
  {
    hide U32At, RecordBits, BitsParent, BitsUsed, BitsDir;
    assert w[6 * i + 0] == RecordWord(e, off, 0) && w[6 * i + 1] == RecordWord(e, off, 1) && w[6 * i + 2] == RecordWord(e, off, 2);
    assert w[6 * i + 3] == RecordWord(e, off, 3) && w[6 * i + 4] == RecordWord(e, off, 4) && w[6 * i + 5] == RecordWord(e, off, 5);
    assert w[6 * i + 0] == U32At(b, at + 24 * i) && w[6 * i + 1] == U32At(b, at + 24 * i + 4);
    assert w[6 * i + 2] == U32At(b, at + 24 * i + 8) && w[6 * i + 3] == U32At(b, at + 24 * i + 12);
    assert w[6 * i + 4] == U32At(b, at + 24 * i + 16) && w[6 * i + 5] == U32At(b, at + 24 * i + 20);
  }

  lemma TableWord(c: Arena, offs: seq<nat>, i: nat, k: nat)
    requires Narrow(c) && |offs| == |c| && i < |c| && k < 6
    ensures RecordTable(c, offs)[6 * i + k] == RecordWord(c[i], offs[i], k)
  {
  }

  /** Record i of a written file is node i of the tree, its name found in the pool. */
  lemma RecordIsNode(host: Host, b: Text, v: Volume, meta: Meta, c: Arena, reserved: seq<U32>, i: nat)
    requires Compacted(host, c) && IsImage(host, b, v, meta, c, reserved) && i < |c|
    requires var l := ImageLayout(v, c); InFile(l, |b|) && Pool(b, l) == PoolOf(c)
    ensures RecordAt(b, ImageLayout(v, c), i) == c[i] && RecordOk(host, b, ImageLayout(v, c), i)
    ensures U32At(b, ImageLayout(v, c).eo + i * 24 + 4) == Offsets(NamesOf(c))[i]
  {
    hide ValidTree, U32At, InternAll, RecordBits, BitsParent, BitsUsed, BitsDir, NameIn;
    var l := ImageLayout(v, c);
    var offs := Offsets(NamesOf(c));
    var w := WordsAt(b, l.eo, RECORD_WORDS * l.n);
    OffsetsRead(NamesOf(c), i);
    assert Representable(host, c[i]) by { NodeFits(host, c, i); }
    forall k: nat | k < 6 ensures w[6 * i + k] == RecordWord(c[i], offs[i], k) {
      TableWord(c, offs, i, k);
    }
    RecordReads(b, l.eo, c[i], offs[i], w, i);
  }

  lemma NodeFits(host: Host, c: Arena, i: nat)
    requires Compacted(host, c) && i < |c|
    ensures Representable(host, c[i])
  {
  }

  /** The header of a written file and the sections it points to. */
  lemma WrittenHeader(host: Host, b: Text, v: Volume, meta: Meta, c: Arena, reserved: seq<U32>)
    requires IsImage(host, b, v, meta, c, reserved)
    ensures |b| >= HEADER && ReadLayout(b) == ImageLayout(v, c) && ReadMeta(b) == meta && U64At(b, 72) == Checksum(host, b, 72)
    ensures U32At(b, 8) == 7 && b[..8] == BASE_MAGIC
    ensures Aligned(ImageLayout(v, c)) && InFile(ImageLayout(v, c), |b|) && Disjoint(Sections(ImageLayout(v, c)))
  {
    hide U32At, U64At, InternAll, Disjoint, Aligned, WordsAt, Checksum, InFile, ReadMeta, ReadLayout, RecordTable, StartTable, Flatten, Middle;
    var l := ImageLayout(v, c);
    HeaderReads(b, l, meta, Checksum(host, b, 72), reserved);
    SectionsAreSound(l);
  }

  lemma WrittenMiddle(host: Host, b: Text, v: Volume, meta: Meta, c: Arena, reserved: seq<U32>)
    requires IsImage(host, b, v, meta, c, reserved) && InFile(ImageLayout(v, c), |b|)
    ensures Pool(b, ImageLayout(v, c)) == PoolOf(c)
    ensures b[HEADER..HEADER + ImageLayout(v, c).mountLen] == v.mount
    ensures b[HEADER..HEADER + ImageLayout(v, c).mountLen + ImageLayout(v, c).nameLen] == v.mount + v.name
  {
    hide WordsAt, InternAll, Checksum, RecordTable, StartTable, Flatten, Middle, HeadTable;
    MiddleReads(b, ImageLayout(v, c), v, PoolOf(c));
  }

  /** The records of a written file are the tree, and its table the tree's child rows. */
  lemma WrittenBody(host: Host, b: Text, v: Volume, meta: Meta, c: Arena, reserved: seq<U32>)
    requires Compacted(host, c) && IsImage(host, b, v, meta, c, reserved) && InFile(ImageLayout(v, c), |b|) && Pool(b, ImageLayout(v, c)) == PoolOf(c)
    ensures Records(b, ImageLayout(v, c)) == c && NameOffsets(b, ImageLayout(v, c)) == Offsets(NamesOf(c))
    ensures forall i :: 0 <= i < |c| ==> RecordOk(host, b, ImageLayout(v, c), i)
    ensures RowsOk(c, Starts(b, ImageLayout(v, c)), Flat(b, ImageLayout(v, c)))
  {
    hide ValidTree, U32At, InternAll, RecordAt, RecordOk, RowsOk, WordsAt, Checksum, Middle, HeadTable;
    var l := ImageLayout(v, c);
    forall i: nat | i < |c| ensures RecordAt(b, l, i) == c[i] && RecordOk(host, b, l, i) && U32At(b, l.eo + i * 24 + 4) == Offsets(NamesOf(c))[i] {
      RecordIsNode(host, b, v, meta, c, reserved, i);
    }
    TableIsSound(host, c, Starts(b, l), Flat(b, l));
  }

  /** What a written file is read as. It is accepted, for its own mount only, exactly when its checksum is not zero, its labels are UTF-8 and its counts are true. */
  lemma WrittenReadsBack(host: Host, b: Text, v: Volume, meta: Meta, c: Arena, reserved: seq<U32>)
    requires Compacted(host, c) && IsImage(host, b, v, meta, c, reserved)
    ensures |b| >= HEADER && InFile(ReadLayout(b), |b|)
    ensures Denotes(b) == Decoded(c, CanonRows(c), Offsets(NamesOf(c)), meta, Checksum(host, b, 72))
    ensures forall m: Text :: Accepts(host, b, m) <==>
            m == v.mount && Checksum(host, b, 72) != 0 && host.utf8(v.mount + v.name) && meta.files == CountKind(c, false) && meta.dirs == CountKind(c, true)
  {
    hide ValidTree, U32At, U64At, InternAll, RecordAt, RecordOk, RowsOk, Disjoint, CountKind, Aligned, WordsAt, IsImage, ReadLayout, ReadMeta, Checksum, Records, NameOffsets, Pool, Starts, Flat, InFile, CanonRows, Fits, LayoutFor;
    WrittenHeader(host, b, v, meta, c, reserved);
    WrittenMiddle(host, b, v, meta, c, reserved);
    WrittenBody(host, b, v, meta, c, reserved);
    CompactedIsStorable(host, c);
    LayoutLabels(v, c);
  }

  lemma LayoutLabels(v: Volume, c: Arena)
    requires Storable(c)
    ensures var l := ImageLayout(v, c); l.mountLen == |v.mount| && l.nameLen == |v.name| && l.n == |c|
  {
  }

  /** A written file altered anywhere but in its checksum is refused for every mount, unless the change leaves the hash alone. */
  lemma AlteredIsRefused(host: Host, b: Text, v: Volume, meta: Meta, c: Arena, reserved: seq<U32>, altered: Text, mount: Text)
    requires IsImage(host, b, v, meta, c, reserved) && |altered| == |b| >= 80 && altered[72..80] == b[72..80]
    requires var zero: Text := [0, 0, 0, 0, 0, 0, 0, 0]; host.hash(altered[..72] + zero + altered[80..]) != host.hash(b[..72] + zero + b[80..])
    ensures !Accepts(host, altered, mount)
  {
    hide U32At, BodyOk, WordsAt, IsImage, ReadMeta, InFile, ReadLayout, Aligned, Disjoint, Stretches, Fitting;
    WrittenHeader(host, b, v, meta, c, reserved);
    assert Zeros(8) == [0, 0, 0, 0, 0, 0, 0, 0];
    SameWord(b, altered, 72);
    HeaderIsHeaded(host, altered, mount);
  }

  lemma SameWord(b: Text, c: Text, at: nat)
    requires |b| == |c| && at + 8 <= |b| && b[at..at + 8] == c[at..at + 8]
    ensures U64At(b, at) == U64At(c, at)
  {
    forall i | at <= i < at + 8 ensures b[i] == c[i] {
      assert b[i] == b[at..at + 8][i - at] && c[i] == c[at..at + 8][i - at];
    }
  }
}
