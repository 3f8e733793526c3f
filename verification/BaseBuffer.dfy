/** The encoder's output buffer: words put in place, and the file with its fixed parts filled in. */
module BaseBuffer {
  import opened Words
  import opened Slots
  import opened Bytes
  import opened Validation
  import opened BaseFormat
  import opened BaseImage
  import opened BaseRoundTrip

  method Put32(b: array<Byte>, off: nat, v: U32)
    requires off + 4 <= b.Length
    modifies b
    ensures b[..] == Splice(old(b[..]), off, LE32(v))
  {
    hide LE32;
    var w := LE32(v);
    b[off], b[off + 1], b[off + 2], b[off + 3] := w[0], w[1], w[2], w[3];
  }

  method PutHead(b: array<Byte>, ghost l: Layout, k: nat, v: U32)
    requires Packed(l) && b.Length == FileLength(l) && k < HEAD_WORDS
    modifies b
    ensures ViewOf(b[..], l) == old(ViewOf(b[..], l)).(head := old(ViewOf(b[..], l)).head[k := v])
  {
    hide ViewOf, LE32, Splice;
    PutHeadView(b[..], l, k, v);
    Put32(b, 4 * k, v);
  }

  /** A 64-bit word is its low half followed by its high half. */
  method PutHead64(b: array<Byte>, ghost l: Layout, k: nat, v: U64)
    requires Packed(l) && b.Length == FileLength(l) && k + 1 < HEAD_WORDS
    modifies b
    ensures ViewOf(b[..], l) == old(ViewOf(b[..], l)).(head := With64(old(ViewOf(b[..], l)).head, k, v))
  {
    hide ViewOf;
    PutHead(b, l, k, v % TWO_TO_THE_32);
    PutHead(b, l, k + 1, v / TWO_TO_THE_32);
  }

  method PutRecordWord(b: array<Byte>, l: Layout, k: nat, v: U32)
    requires Packed(l) && b.Length == FileLength(l) && k < RECORD_WORDS * l.n
    modifies b
    ensures ViewOf(b[..], l) == old(ViewOf(b[..], l)).(records := old(ViewOf(b[..], l)).records[k := v])
  {
    hide ViewOf, LE32, Splice;
    PutRecordView(b[..], l, k, v);
    Put32(b, l.eo + 4 * k, v);
  }

  method PutStart(b: array<Byte>, l: Layout, k: nat, v: U32)
    requires Packed(l) && b.Length == FileLength(l) && k <= l.n
    modifies b
    ensures ViewOf(b[..], l) == old(ViewOf(b[..], l)).(starts := old(ViewOf(b[..], l)).starts[k := v])
  {
    hide ViewOf, LE32, Splice;
    PutStartView(b[..], l, k, v);
    Put32(b, l.cs + 4 * k, v);
  }

  method PutKid(b: array<Byte>, l: Layout, k: nat, v: U32)
    requires Packed(l) && b.Length == FileLength(l) && k < l.n - 1
    modifies b
    ensures ViewOf(b[..], l) == old(ViewOf(b[..], l)).(kids := old(ViewOf(b[..], l)).kids[k := v])
  {
    hide ViewOf, LE32, Splice;
    PutKidView(b[..], l, k, v);
    Put32(b, l.ca + 4 * k, v);
  }

  method StartAt(b: array<Byte>, l: Layout, k: nat) returns (v: U32)
    requires Packed(l) && b.Length == FileLength(l) && k <= l.n
    ensures v == ViewOf(b[..], l).starts[k]
  {
    v := U32At(b[..], l.cs + 4 * k);
  }

  // -- Records --------------------------------------------------------------------------

  function WithRecord(w: seq<U32>, i: nat, e: Slot, off: nat): (r: seq<U32>)
    requires RECORD_WORDS * i + RECORD_WORDS <= |w| && e.parent < PARENT_LIMIT
    ensures |r| == |w|
    ensures forall m :: 0 <= m < |r| ==> r[m] == if RECORD_WORDS * i <= m < RECORD_WORDS * i + RECORD_WORDS then RecordWord(e, off, m - RECORD_WORDS * i) else w[m]
  {
    var k := RECORD_WORDS * i;
    w[k := RecordWord(e, off, 0)][k + 1 := RecordWord(e, off, 1)][k + 2 := RecordWord(e, off, 2)]
     [k + 3 := RecordWord(e, off, 3)][k + 4 := RecordWord(e, off, 4)][k + 5 := RecordWord(e, off, 5)]
  }

  method WriteRecord(b: array<Byte>, l: Layout, i: nat, e: Slot, off: nat)
    requires Packed(l) && b.Length == FileLength(l) && i < l.n && e.parent < PARENT_LIMIT
    modifies b
    ensures ViewOf(b[..], l) == old(ViewOf(b[..], l)).(records := WithRecord(old(ViewOf(b[..], l)).records, i, e, off))
  {
    hide ViewOf, RecordWord;
    var k := RECORD_WORDS * i;
    PutRecordWord(b, l, k, RecordWord(e, off, 0));
    PutRecordWord(b, l, k + 1, RecordWord(e, off, 1));
    PutRecordWord(b, l, k + 2, RecordWord(e, off, 2));
    PutRecordWord(b, l, k + 3, RecordWord(e, off, 3));
    PutRecordWord(b, l, k + 4, RecordWord(e, off, 4));
    PutRecordWord(b, l, k + 5, RecordWord(e, off, 5));
  }

  /** The first i records are in place. */
  ghost predicate RecordsTo(w: seq<U32>, c: Arena, offs: seq<nat>, i: nat)
  {
    && Narrow(c) && |offs| == |c| && i <= |c| && |w| == RECORD_WORDS * |c|
    && forall m :: 0 <= m < RECORD_WORDS * i ==> w[m] == RecordTable(c, offs)[m]
  }

  lemma RecordsNext(w: seq<U32>, c: Arena, offs: seq<nat>, i: nat)
    requires RecordsTo(w, c, offs, i) && i < |c|
    ensures RecordsTo(WithRecord(w, i, c[i], offs[i]), c, offs, i + 1)
  {
    hide RecordWord, RecordTable, WithRecord;
    var w' := WithRecord(w, i, c[i], offs[i]);
    forall m: nat | m < RECORD_WORDS * (i + 1) ensures w'[m] == RecordTable(c, offs)[m] {
      if m >= RECORD_WORDS * i {
        TableWord(c, offs, i, m - RECORD_WORDS * i);
      }
    }
  }

  // -- The fixed parts --------------------------------------------------------------------

  /** Copies w to off. */
  method CopyInto(b: array<Byte>, off: nat, w: Text)
    requires off + |w| <= b.Length
    modifies b
    ensures b[..] == Splice(old(b[..]), off, w)
  {
    for i := 0 to |w|
      invariant forall k :: 0 <= k < b.Length ==> b[k] == if off <= k < off + i then w[k - off] else old(b[k])
    {
      b[off + i] := w[i];
    }
  }

  /** Text copied between the header and the records shows there and nowhere else. */
  lemma CopyView(b: Text, l: Layout, off: nat, w: Text)
    requires Packed(l) && |b| == FileLength(l) && HEADER <= off && off + |w| <= l.eo
    ensures ViewOf(Splice(b, off, w), l) == ViewOf(b, l).(middle := Splice(ViewOf(b, l).middle, off - HEADER, w))
  {
    hide WordsAt;
    var t := Splice(b, off, w);
    SpliceApart(b, off, w, 0, 4 * HEAD_WORDS);
    WordsLocal(t, b, 0, HEAD_WORDS);
    SpliceApart(b, off, w, l.eo, l.eo + 4 * (RECORD_WORDS * l.n));
    WordsLocal(t, b, l.eo, RECORD_WORDS * l.n);
    SpliceApart(b, off, w, l.cs, l.cs + 4 * (l.n + 1));
    WordsLocal(t, b, l.cs, l.n + 1);
    SpliceApart(b, off, w, l.ca, l.ca + 4 * (l.n - 1));
    WordsLocal(t, b, l.ca, l.n - 1);
    assert t[HEADER..l.eo] == Splice(b[HEADER..l.eo], off - HEADER, w);
  }

  function NoWords(n: nat): (r: seq<U32>)
    ensures |r| == n && forall i :: 0 <= i < n ==> r[i] == 0
  {
    seq(n, i => 0)
  }

  /** The file before records, child tables and checksum are written. */
  function BlankView(l: Layout, v: Volume, meta: Meta, pool: Text): View
    requires Packed(l) && FileLength(l) <= MAX_U32 && HEADER + |v.mount| + |v.name| <= l.po && l.po + |pool| <= l.eo
    requires l.poolLen == |pool| && l.mountLen == |v.mount| && l.nameLen == |v.name|
  {
    View(HeadTable(l, meta, 0, NoWords(8)), Middle(l, v, pool), NoWords(RECORD_WORDS * l.n), NoWords(l.n + 1), NoWords(l.n - 1))
  }

  lemma ZeroView(b: Text, l: Layout)
    requires Packed(l) && |b| == FileLength(l) && forall i :: 0 <= i < |b| ==> b[i] == 0
    ensures ViewOf(b, l) == View(NoWords(HEAD_WORDS), Zeros(l.eo - HEADER), NoWords(RECORD_WORDS * l.n), NoWords(l.n + 1), NoWords(l.n - 1))
  {
  }

  /** The buffer for a tree of n nodes, unless the file would pass 4 GiB. */
  method Allocate(v: Volume, meta: Meta, pool: Text, n: nat) returns (ok: bool, b: array<Byte>, l: Layout)
    requires n > 0
    ensures l == LayoutFor(v, |pool|, n) && Packed(l) && fresh(b)
    ensures ok <==> FileLength(l) <= MAX_U32
    ensures ok ==> b.Length == FileLength(l) && ViewOf(b[..], l) == BlankView(l, v, meta, pool)
  {
    hide ViewOf, LayoutFor, HeadTable, Middle;
    l := LayoutFor(v, |pool|, n);
    LayoutFacts(v, |pool|, n);
    if FileLength(l) > MAX_U32 {
      b := new Byte[0];
      return false, b, l;
    }
    ok := true;
    b := new Byte[FileLength(l)](_ => 0);
    ZeroView(b[..], l);
    WriteHead(b, l, meta);
    CopyView(b[..], l, HEADER, v.mount);
    CopyInto(b, HEADER, v.mount);
    CopyView(b[..], l, HEADER + |v.mount|, v.name);
    CopyInto(b, HEADER + |v.mount|, v.name);
    CopyView(b[..], l, l.po, pool);
    CopyInto(b, l.po, pool);
    MiddleFilled(l, v, pool);
  }

  lemma LayoutFacts(v: Volume, poolLen: nat, n: nat)
    requires n > 0
    ensures var l := LayoutFor(v, poolLen, n);
            && Packed(l) && l.n == n && l.poolLen == poolLen && l.mountLen == |v.mount| && l.nameLen == |v.name|
            && HEADER + |v.mount| + |v.name| <= l.po && l.po + poolLen <= l.eo
  {
  }

  lemma MiddleFilled(l: Layout, v: Volume, pool: Text)
    requires HEADER + |v.mount| + |v.name| <= l.po && l.po + |pool| <= l.eo
    ensures Splice(Splice(Splice(Zeros(l.eo - HEADER), 0, v.mount), |v.mount|, v.name), l.po - HEADER, pool) == Middle(l, v, pool)
  {
  }

  function WithGeometry(w: seq<U32>, l: Layout): (r: seq<U32>)
    requires |w| == HEAD_WORDS && HeadFits(l)
    ensures |r| == HEAD_WORDS
  {
    w[0 := MAGIC_LOW][1 := MAGIC_HIGH][2 := 7][3 := l.n][4 := l.poolLen][5 := l.kidCount][6 := l.mountLen][7 := l.nameLen]
     [20 := l.po][21 := l.eo][22 := l.cs][23 := l.ca]
  }

  function With64(w: seq<U32>, k: nat, v: U64): (r: seq<U32>)
    requires k + 1 < |w|
    ensures |r| == |w|
  {
    w[k := v % TWO_TO_THE_32][k + 1 := v / TWO_TO_THE_32]
  }

  lemma HeadFilled(l: Layout, meta: Meta)
    requires HeadFits(l)
    ensures With64(With64(With64(With64(With64(WithGeometry(NoWords(HEAD_WORDS), l), 8, meta.files), 10, meta.dirs), 12, meta.totalSize), 14, meta.lastEvent), 16, meta.scannedAt)
         == HeadTable(l, meta, 0, NoWords(8))
  {
    var w := With64(With64(With64(With64(With64(WithGeometry(NoWords(HEAD_WORDS), l), 8, meta.files), 10, meta.dirs), 12, meta.totalSize), 14, meta.lastEvent), 16, meta.scannedAt);
    var h := HeadTable(l, meta, 0, NoWords(8));
    forall k | 0 <= k < HEAD_WORDS ensures w[k] == h[k] {
    }
  }

  method WriteGeometry(b: array<Byte>, l: Layout)
    requires Packed(l) && b.Length == FileLength(l) && HeadFits(l)
    modifies b
    ensures ViewOf(b[..], l) == old(ViewOf(b[..], l)).(head := WithGeometry(old(ViewOf(b[..], l)).head, l))
  {
    hide ViewOf;
    PutHead(b, l, 0, MAGIC_LOW);
    PutHead(b, l, 1, MAGIC_HIGH);
    PutHead(b, l, 2, 7);
    PutHead(b, l, 3, l.n);
    PutHead(b, l, 4, l.poolLen);
    PutHead(b, l, 5, l.kidCount);
    PutHead(b, l, 6, l.mountLen);
    PutHead(b, l, 7, l.nameLen);
    PutHead(b, l, 20, l.po);
    PutHead(b, l, 21, l.eo);
    PutHead(b, l, 22, l.cs);
    PutHead(b, l, 23, l.ca);
  }

  method WriteHead(b: array<Byte>, l: Layout, meta: Meta)
    requires Packed(l) && b.Length == FileLength(l) && HeadFits(l)
    requires ViewOf(b[..], l).head == NoWords(HEAD_WORDS)
    modifies b
    ensures ViewOf(b[..], l) == old(ViewOf(b[..], l)).(head := HeadTable(l, meta, 0, NoWords(8)))
  {
    hide ViewOf, With64, WithGeometry, HeadTable;
    WriteGeometry(b, l);
    PutHead64(b, l, 8, meta.files);
    PutHead64(b, l, 10, meta.dirs);
    PutHead64(b, l, 12, meta.totalSize);
    PutHead64(b, l, 14, meta.lastEvent);
    PutHead64(b, l, 16, meta.scannedAt);
    HeadFilled(l, meta);
  }

  // -- The checksum --------------------------------------------------------------------------

  lemma ChecksumIgnoresItself(host: Host, b: Text, w: Text)
    requires |b| >= HEADER && |w| == 8
    ensures Checksum(host, Splice(b, 72, w), 72) == Checksum(host, b, 72)
  {
    assert Splice(Splice(b, 72, w), 72, Zeros(8)) == Splice(b, 72, Zeros(8));
  }

  /** Stores the file's checksum in the file. */
  method Seal(host: Host, b: array<Byte>, ghost l: Layout)
    requires Packed(l) && b.Length == FileLength(l)
    modifies b
    ensures ViewOf(b[..], l) == old(ViewOf(b[..], l)).(head := SealedHead(old(ViewOf(b[..], l)).head, Checksum(host, b[..], 72)))
    ensures Checksum(host, b[..], 72) == old(Checksum(host, b[..], 72))
  {
    hide ViewOf, Splice, LE32, Checksum;
    ghost var b0 := b[..];
    var sum := Checksum(host, b[..], 72);
    PutHeadView(b0, l, 18, sum % TWO_TO_THE_32);
    ghost var b1 := Splice(b0, 72, LE32(sum % TWO_TO_THE_32));
    PutHeadView(b1, l, 19, sum / TWO_TO_THE_32);
    Put32(b, 72, sum % TWO_TO_THE_32);
    Put32(b, 76, sum / TWO_TO_THE_32);
    SplicePair(b0, 72, LE32(sum % TWO_TO_THE_32), LE32(sum / TWO_TO_THE_32));
    ChecksumIgnoresItself(host, b0, LE32(sum % TWO_TO_THE_32) + LE32(sum / TWO_TO_THE_32));
  }

  lemma SplicePair(b: Text, off: nat, x: Text, y: Text)
    requires off + |x| + |y| <= |b|
    ensures Splice(Splice(b, off, x), off + |x|, y) == Splice(b, off, x + y)
  {
  }

  function SealedHead(head: seq<U32>, sum: U64): (r: seq<U32>)
    requires |head| == HEAD_WORDS
    ensures |r| == HEAD_WORDS
  {
    head[18 := sum % TWO_TO_THE_32][19 := sum / TWO_TO_THE_32]
  }
}
