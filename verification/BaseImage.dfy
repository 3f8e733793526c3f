/** The bytes of a v7 base file, as a function of the tree it holds. */
module BaseImage {
  import opened Words
  import opened Slots
  import opened Bytes
  import opened ChildRows
  import opened Validation
  import opened BaseFormat
  import opened Interning

  const HEAD_WORDS: nat := 32
  const RECORD_WORDS: nat := 6
  const MAGIC_LOW: U32 := Word(81, 67, 73, 68)
  const MAGIC_HIGH: U32 := Word(88, 86, 48, 55)

  // -- Geometry ----------------------------------------------------------------------

  function Align8(v: nat): (r: nat)
    ensures v <= r < v + 8 && r % 8 == 0
  {
    (v + 7) / 8 * 8
  }

  /** Labels, then the pool, then records and the two child tables without a gap. */
  function LayoutFor(v: Volume, poolLen: nat, n: nat): Layout
    requires n > 0
  {
    var po := Align8(HEADER + |v.mount| + |v.name|);
    var eo := Align8(po + poolLen);
    Layout(n, poolLen, n - 1, |v.mount|, |v.name|, po, eo, eo + n * 24, eo + n * 24 + (n + 1) * 4)
  }

  function FileLength(l: Layout): nat
  {
    l.ca + l.kidCount * 4
  }

  /** Records, starts and kids stand back to back on word boundaries. */
  predicate Packed(l: Layout)
  {
    && l.n > 0 && l.kidCount == l.n - 1 && HEADER <= l.eo
    && l.cs == l.eo + l.n * 24 && l.ca == l.cs + (l.n + 1) * 4
  }

  // -- Word by word -------------------------------------------------------------------

  /** A packed file cut into its word tables and the text between them. */
  datatype View = View(head: seq<U32>, middle: Text, records: seq<U32>, starts: seq<nat>, kids: seq<nat>)

  function ViewOf(b: Text, l: Layout): (r: View)
    requires Packed(l) && |b| == FileLength(l)
    ensures |r.head| == HEAD_WORDS && |r.records| == RECORD_WORDS * l.n && |r.starts| == l.n + 1 && |r.kids| == l.n - 1
  {
    View(WordsAt(b, 0, HEAD_WORDS), b[HEADER..l.eo], WordsAt(b, l.eo, RECORD_WORDS * l.n), WordsAt(b, l.cs, l.n + 1), WordsAt(b, l.ca, l.n - 1))
  }

  /** Writing one word of a table changes that word of that table, and nothing else. */
  lemma PutHeadView(b: Text, l: Layout, k: nat, v: U32)
    requires Packed(l) && |b| == FileLength(l) && k < HEAD_WORDS
    ensures ViewOf(Splice(b, 4 * k, LE32(v)), l) == ViewOf(b, l).(head := ViewOf(b, l).head[k := v])
  {
    hide WordsAt, LE32;
    WordsPut(b, 0, HEAD_WORDS, k, v);
    Elsewhere(b, l, 4 * k, v);
  }

  lemma PutRecordView(b: Text, l: Layout, k: nat, v: U32)
    requires Packed(l) && |b| == FileLength(l) && k < RECORD_WORDS * l.n
    ensures ViewOf(Splice(b, l.eo + 4 * k, LE32(v)), l) == ViewOf(b, l).(records := ViewOf(b, l).records[k := v])
  {
    hide WordsAt, LE32;
    WordsPut(b, l.eo, RECORD_WORDS * l.n, k, v);
    Elsewhere(b, l, l.eo + 4 * k, v);
  }

  lemma PutStartView(b: Text, l: Layout, k: nat, v: U32)
    requires Packed(l) && |b| == FileLength(l) && k <= l.n
    ensures ViewOf(Splice(b, l.cs + 4 * k, LE32(v)), l) == ViewOf(b, l).(starts := ViewOf(b, l).starts[k := v])
  {
    hide WordsAt, LE32;
    WordsPut(b, l.cs, l.n + 1, k, v);
    Elsewhere(b, l, l.cs + 4 * k, v);
  }

  lemma PutKidView(b: Text, l: Layout, k: nat, v: U32)
    requires Packed(l) && |b| == FileLength(l) && k < l.n - 1
    ensures ViewOf(Splice(b, l.ca + 4 * k, LE32(v)), l) == ViewOf(b, l).(kids := ViewOf(b, l).kids[k := v])
  {
    hide WordsAt, LE32;
    WordsPut(b, l.ca, l.n - 1, k, v);
    Elsewhere(b, l, l.ca + 4 * k, v);
  }

  /** The tables a write at off does not meet stay as they are. */
  lemma Elsewhere(b: Text, l: Layout, off: nat, v: U32)
    requires Packed(l) && |b| == FileLength(l) && off + 4 <= |b|
    ensures off >= HEADER ==> WordsAt(Splice(b, off, LE32(v)), 0, HEAD_WORDS) == WordsAt(b, 0, HEAD_WORDS)
    ensures off + 4 <= HEADER || off >= l.eo ==> Splice(b, off, LE32(v))[HEADER..l.eo] == b[HEADER..l.eo]
    ensures off + 4 <= l.eo || off >= l.cs ==> WordsAt(Splice(b, off, LE32(v)), l.eo, RECORD_WORDS * l.n) == WordsAt(b, l.eo, RECORD_WORDS * l.n)
    ensures off + 4 <= l.cs || off >= l.ca ==> WordsAt(Splice(b, off, LE32(v)), l.cs, l.n + 1) == WordsAt(b, l.cs, l.n + 1)
    ensures off + 4 <= l.ca ==> WordsAt(Splice(b, off, LE32(v)), l.ca, l.n - 1) == WordsAt(b, l.ca, l.n - 1)
  {
    hide WordsAt, LE32;
    WordsApart(b, off, v, 0, HEAD_WORDS);
    WordsApart(b, off, v, l.eo, RECORD_WORDS * l.n);
    WordsApart(b, off, v, l.cs, l.n + 1);
    WordsApart(b, off, v, l.ca, l.n - 1);
    if off + 4 <= HEADER || off >= l.eo {
      SpliceApart(b, off, LE32(v), HEADER, l.eo);
    }
  }

  lemma WordsApart(b: Text, off: nat, v: U32, at: nat, n: nat)
    requires off + 4 <= |b| && at + 4 * n <= |b|
    ensures off + 4 <= at || at + 4 * n <= off ==> WordsAt(Splice(b, off, LE32(v)), at, n) == WordsAt(b, at, n)
  {
    hide WordsAt, LE32;
    if off + 4 <= at || at + 4 * n <= off {
      SpliceApart(b, off, LE32(v), at, at + 4 * n);
      WordsLocal(Splice(b, off, LE32(v)), b, at, n);
    }
  }

  /** The view is the whole file. */
  lemma ViewIsAll(b: Text, c: Text, l: Layout)
    requires Packed(l) && |b| == |c| == FileLength(l) && ViewOf(b, l) == ViewOf(c, l)
    ensures b == c
  {
    hide WordsAt;
    WordsBytes(b, c, 0, HEAD_WORDS);
    WordsBytes(b, c, l.eo, RECORD_WORDS * l.n);
    WordsBytes(b, c, l.cs, l.n + 1);
    WordsBytes(b, c, l.ca, l.n - 1);
    PartsAreAll(b, c, l);
  }

  lemma PartsAreAll(b: Text, c: Text, l: Layout)
    requires Packed(l) && |b| == |c| == FileLength(l)
    requires b[0..0 + 4 * HEAD_WORDS] == c[0..0 + 4 * HEAD_WORDS] && b[HEADER..l.eo] == c[HEADER..l.eo]
    requires b[l.eo..l.eo + 4 * (RECORD_WORDS * l.n)] == c[l.eo..l.eo + 4 * (RECORD_WORDS * l.n)]
    requires b[l.cs..l.cs + 4 * (l.n + 1)] == c[l.cs..l.cs + 4 * (l.n + 1)] && b[l.ca..l.ca + 4 * (l.n - 1)] == c[l.ca..l.ca + 4 * (l.n - 1)]
    ensures b == c
  {
    Glue(b, l);
    Glue(c, l);
  }

  lemma Glue(b: Text, l: Layout)
    requires Packed(l) && |b| == FileLength(l)
    ensures b == b[0..0 + 4 * HEAD_WORDS] + b[HEADER..l.eo] + b[l.eo..l.eo + 4 * (RECORD_WORDS * l.n)] + b[l.cs..l.cs + 4 * (l.n + 1)] + b[l.ca..l.ca + 4 * (l.n - 1)]
  {
  }

  // -- Records ---------------------------------------------------------------------------

  /** Slots whose fields the words can hold. */
  predicate Narrow(c: Arena)
  {
    forall i :: 0 <= i < |c| ==> |c[i].name| <= MAX_U16 && c[i].parent < PARENT_LIMIT
  }

  predicate Storable(c: Arena)
  {
    0 < |c| <= PARENT_LIMIT && Narrow(c)
  }

  function NamesOf(c: Arena): (r: seq<Name>)
    ensures |r| == |c| && forall i :: 0 <= i < |c| ==> r[i] == c[i].name
  {
    seq(|c|, (i: nat) requires i < |c| => c[i].name)
  }

  function RecordBits(e: Slot): (bits: U32)
    requires e.parent < PARENT_LIMIT
    ensures BitsParent(bits) == e.parent && BitsUsed(bits) == e.used && BitsDir(bits) == e.isDir
  {
    e.parent + (if e.used then USED_BIT else 0) + (if e.isDir then DIR_BIT else 0)
  }

  /** The six words of a record; times and counts are cut to 32 bits. */
  function RecordWord(e: Slot, off: nat, k: nat): U32
    requires e.parent < PARENT_LIMIT && k < RECORD_WORDS
  {
    match k
    case 0 => RecordBits(e)
    case 1 => off % TWO_TO_THE_32
    case 2 => e.size % TWO_TO_THE_32
    case 3 => e.size / TWO_TO_THE_32
    case 4 => e.mtime % TWO_TO_THE_32
    case _ => e.files % TWO_TO_THE_32
  }

  function RecordTable(c: Arena, offs: seq<nat>): (r: seq<U32>)
    requires Narrow(c) && |offs| == |c|
    ensures |r| == RECORD_WORDS * |c|
    ensures forall m :: 0 <= m < |r| ==> r[m] == RecordWord(c[m / RECORD_WORDS], offs[m / RECORD_WORDS], m % RECORD_WORDS)
  {
    seq(RECORD_WORDS * |c|, (m: nat) requires m < RECORD_WORDS * |c| => RecordWord(c[m / RECORD_WORDS], offs[m / RECORD_WORDS], m % RECORD_WORDS))
  }

  // -- The child table ----------------------------------------------------------------------

  /** The child rows of the first p nodes, one after the other. */
  function Flatten(c: Arena, p: nat): (r: seq<nat>)
    requires p <= |c|
  {
    if p == 0 then [] else Flatten(c, p - 1) + ChildIds(c, p - 1, |c|)
  }

  function StartTable(c: Arena): (r: seq<nat>)
    ensures |r| == |c| + 1 && forall p :: 0 <= p <= |c| ==> r[p] == |Flatten(c, p)|
  {
    seq(|c| + 1, (p: nat) requires p <= |c| => |Flatten(c, p)|)
  }

  // -- The file -------------------------------------------------------------------------------

  /** Every header field fits its word. */
  predicate HeadFits(l: Layout)
  {
    && l.n <= MAX_U32 && l.poolLen <= MAX_U32 && l.kidCount <= MAX_U32 && l.mountLen <= MAX_U32 && l.nameLen <= MAX_U32
    && l.po <= MAX_U32 && l.eo <= MAX_U32 && l.cs <= MAX_U32 && l.ca <= MAX_U32
  }

  function HeadTable(l: Layout, meta: Meta, checksum: U64, reserved: seq<U32>): (r: seq<U32>)
    requires HeadFits(l)
    requires |reserved| == 8
    ensures |r| == HEAD_WORDS
  {
    [MAGIC_LOW, MAGIC_HIGH, 7, l.n, l.poolLen, l.kidCount, l.mountLen, l.nameLen,
     meta.files % TWO_TO_THE_32, meta.files / TWO_TO_THE_32, meta.dirs % TWO_TO_THE_32, meta.dirs / TWO_TO_THE_32,
     meta.totalSize % TWO_TO_THE_32, meta.totalSize / TWO_TO_THE_32, meta.lastEvent % TWO_TO_THE_32, meta.lastEvent / TWO_TO_THE_32,
     meta.scannedAt % TWO_TO_THE_32, meta.scannedAt / TWO_TO_THE_32, checksum % TWO_TO_THE_32, checksum / TWO_TO_THE_32,
     l.po, l.eo, l.cs, l.ca]
    + reserved
  }

  function Middle(l: Layout, v: Volume, pool: Text): (r: Text)
    requires HEADER + |v.mount| + |v.name| <= l.po && l.po + |pool| <= l.eo
    ensures |r| == l.eo - HEADER
  {
    v.mount + v.name + Zeros(l.po - (HEADER + |v.mount| + |v.name|)) + pool + Zeros(l.eo - (l.po + |pool|))
  }

  function PoolOf(c: Arena): Text
    requires Storable(c)
  {
    InternAll(NamesOf(c)).pool
  }

  function ImageLayout(v: Volume, c: Arena): (l: Layout)
    requires Storable(c)
    ensures Packed(l)
  {
    LayoutFor(v, |PoolOf(c)|, |c|)
  }

  /** The encoding fits the format's 32-bit offsets. */
  predicate Fits(v: Volume, c: Arena)
    requires Storable(c)
  {
    FileLength(ImageLayout(v, c)) <= MAX_U32
  }

  function ImageView(v: Volume, meta: Meta, c: Arena, checksum: U64, reserved: seq<U32>): View
    requires Storable(c) && Fits(v, c) && |reserved| == 8
  {
    var l := ImageLayout(v, c);
    View(HeadTable(l, meta, checksum, reserved), Middle(l, v, PoolOf(c)), RecordTable(c, Offsets(NamesOf(c))), StartTable(c), Flatten(c, |c|))
  }

  /** b is the file for this tree, with these reserved header words and its own checksum in place. */
  ghost predicate IsImage(host: Host, b: Text, v: Volume, meta: Meta, c: Arena, reserved: seq<U32>)
  {
    && Storable(c) && Fits(v, c) && |reserved| == 8
    && |b| == FileLength(ImageLayout(v, c)) && |b| >= HEADER
    && ViewOf(b, ImageLayout(v, c)) == ImageView(v, meta, c, Checksum(host, b, 72), reserved)
  }
}
