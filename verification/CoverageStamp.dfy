/** Binding an index to its coverage list: the digest stamped into a finished file's reserved header words. */
module CoverageStamp {
  import opened Words
  import opened Slots
  import opened Bytes
  import opened Validation
  import opened BaseFormat
  import opened Interning
  import opened BaseImage
  import opened BaseBuffer
  import opened DeltaFormat
  import opened DeltaImage
  import opened DeltaWriter
  import opened SpillIndex
  import Publication

  const COVERAGE_LOW: U32 := Word(81, 67, 67, 79)
  const COVERAGE_HIGH: U32 := Word(86, 48, 48, 49)

  // -- Base headers ------------------------------------------------------------------------

  function CoverageWords(digest: U64, salt: U64, reserved: seq<U32>): (r: seq<U32>)
    requires |reserved| == 8
    ensures |r| == 8
  {
    [digest % TWO_TO_THE_32, digest / TWO_TO_THE_32,
     if SaltOf(reserved) == 0 then salt % TWO_TO_THE_32 else reserved[2], if SaltOf(reserved) == 0 then salt / TWO_TO_THE_32 else reserved[3],
     reserved[4], reserved[5], COVERAGE_LOW, COVERAGE_HIGH]
  }

  /** Words 26 and 27 of the header tell equal rewrites apart. */
  function SaltOf(reserved: seq<U32>): U64
    requires |reserved| == 8
  {
    reserved[2] + TWO_TO_THE_32 * reserved[3]
  }

  lemma CoveredHead(l: Layout, meta: Meta, sum: U64, sum': U64, digest: U64, salt: U64, reserved: seq<U32>)
    requires HeadFits(l) && |reserved| == 8
    ensures SealedHead(Stamped(HeadTable(l, meta, sum, reserved), digest, salt, SaltOf(reserved) != 0), sum')
         == HeadTable(l, meta, sum', CoverageWords(digest, salt, reserved))
  {
    var x := SealedHead(Stamped(HeadTable(l, meta, sum, reserved), digest, salt, SaltOf(reserved) != 0), sum');
    var y := HeadTable(l, meta, sum', CoverageWords(digest, salt, reserved));
    forall k | 0 <= k < HEAD_WORDS ensures x[k] == y[k] {
    }
  }

  lemma SaltReads(b: Text, l: Layout, meta: Meta, sum: U64, reserved: seq<U32>)
    requires Packed(l) && |b| == FileLength(l) && HeadFits(l) && |reserved| == 8
    requires ViewOf(b, l).head == HeadTable(l, meta, sum, reserved)
    ensures U64At(b, 104) == SaltOf(reserved)
  {
    hide U32At;
    var w := ViewOf(b, l).head;
    assert w[26] == U32At(b, 104) && w[27] == U32At(b, 108);
  }

  /** The header words with a salt, if there was none, the extension's name and the digest. */
  function Stamped(w: seq<U32>, digest: U64, salt: U64, salted: bool): (r: seq<U32>)
    requires |w| == HEAD_WORDS
    ensures |r| == HEAD_WORDS
  {
    With64((if salted then w else With64(w, 26, salt))[30 := COVERAGE_LOW][31 := COVERAGE_HIGH], 24, digest)
  }

  method StampWords(b: array<Byte>, l: Layout, digest: U64, salt: U64)
    requires Packed(l) && b.Length == FileLength(l) && b.Length >= HEADER
    modifies b
    ensures ViewOf(b[..], l) == old(ViewOf(b[..], l)).(head := Stamped(old(ViewOf(b[..], l)).head, digest, salt, old(U64At(b[..], 104)) != 0))
  {
    hide ViewOf, With64, FileLength, U64At;
    if U64At(b[..], 104) == 0 {
      PutHead64(b, l, 26, salt);
    }
    PutHead(b, l, 30, COVERAGE_LOW);
    PutHead(b, l, 31, COVERAGE_HIGH);
    PutHead64(b, l, 24, digest);
  }

  /** Stamps the header words of a base layout and gives the file its new checksum. */
  method StampHead(host: Host, b: array<Byte>, rest: Text, l: Layout, digest: U64, salt: U64, ghost meta: Meta, ghost sum: U64, ghost reserved: seq<U32>) returns (file: Text)
    requires Packed(l) && HeadFits(l) && b.Length == FileLength(l) && |reserved| == 8
    requires ViewOf(b[..], l).head == HeadTable(l, meta, sum, reserved)
    modifies b
    ensures file == b[..] + rest && |file| >= HEADER
    ensures ViewOf(b[..], l) == old(ViewOf(b[..], l)).(head := HeadTable(l, meta, Checksum(host, file, 72), CoverageWords(digest, salt, reserved)))
  {
    hide ViewOf, HeadTable, Checksum, SealedHead, Stamped, CoverageWords, U64At;
    LongEnough(l);
    SaltReads(b[..], l, meta, sum, reserved);
    StampWords(b, l, digest, salt);
    file := SealWith(host, b, rest, l);
    CoveredHead(l, meta, sum, Checksum(host, file, 72), digest, salt, reserved);
  }

  lemma LongEnough(l: Layout)
    requires Packed(l)
    ensures FileLength(l) >= HEADER
  {
  }

  /** Stores in the header the checksum of the buffer followed by the rest of the file. */
  method SealWith(host: Host, b: array<Byte>, rest: Text, l: Layout) returns (file: Text)
    requires Packed(l) && b.Length == FileLength(l) >= HEADER
    modifies b
    ensures file == b[..] + rest && |file| >= HEADER
    ensures ViewOf(b[..], l) == old(ViewOf(b[..], l)).(head := SealedHead(old(ViewOf(b[..], l)).head, Checksum(host, file, 72)))
  {
    hide ViewOf, Checksum, LE32, Splice;
    ghost var b0 := b[..];
    var sum := Checksum(host, b[..] + rest, 72);
    PutHeadView(b0, l, 18, sum % TWO_TO_THE_32);
    ghost var b1 := Splice(b0, 72, LE32(sum % TWO_TO_THE_32));
    PutHeadView(b1, l, 19, sum / TWO_TO_THE_32);
    Put32(b, 72, sum % TWO_TO_THE_32);
    Put32(b, 76, sum / TWO_TO_THE_32);
    file := b[..] + rest;
    SameChecksum(host, b0, rest, LE32(sum % TWO_TO_THE_32), LE32(sum / TWO_TO_THE_32));
  }

  /** A stamped base stays the file of the same tree, under a new checksum. */
  method PrepareCoverage(host: Host, b: array<Byte>, digest: U64, salt: U64, l: Layout, ghost v: Volume, ghost meta: Meta, ghost c: Arena, ghost reserved: seq<U32>)
    requires IsImage(host, b[..], v, meta, c, reserved) && l == ImageLayout(v, c)
    modifies b
    ensures IsImage(host, b[..], v, meta, c, CoverageWords(digest, salt, reserved))
  {
    hide ViewOf, HeadTable, RecordTable, StartTable, Flatten, InternAll, Middle, Checksum, CoverageWords, FileLength;
    ghost var sum := Checksum(host, b[..], 72);
    ImageHeadFits(v, c);
    var file := StampHead(host, b, [], l, digest, salt, meta, sum, reserved);
    assert file == b[..];
  }

  lemma ImageHeadFits(v: Volume, c: Arena)
    requires Storable(c) && Fits(v, c)
    ensures HeadFits(ImageLayout(v, c)) && Packed(ImageLayout(v, c))
  {
    hide InternAll;
  }

  /** A stamped streamed file stays the file of the same spill. */
  method PrepareSpillCoverage(host: Host, b: array<Byte>, pool: Text, digest: U64, salt: U64, l: Layout, ghost v: Volume, ghost meta: Meta, ghost t: Arena, ghost c: Arena, ghost offs: seq<nat>, ghost reserved: seq<U32>)
    returns (file: Text)
    requires IsSpillFile(host, b[..] + pool, v, meta, t, c, pool, offs, reserved) && |t| <= PARENT_LIMIT
    requires l == SpillLayout(v, |t|, |pool|) && b.Length == FileLength(l)
    modifies b
    ensures file == b[..] + pool && IsSpillFile(host, file, v, meta, t, c, pool, offs, CoverageWords(digest, salt, reserved))
  {
    hide ViewOf, HeadTable, RecordTable, StartTable, Flatten, Checksum, CoverageWords, FileLength, SpillLayout, Labels, NameIn;
    ghost var whole := b[..] + pool;
    SpillSections(v, |t|, |pool|, |whole|);
    assert whole[..b.Length] == b[..];
    file := StampHead(host, b, pool, l, digest, salt, meta, Checksum(host, whole, 72), reserved);
    assert file[..b.Length] == b[..] && file[b.Length..] == pool;
  }

  // -- Delta headers -------------------------------------------------------------------------

  function DeltaCoverageWords(digest: U64): (r: seq<U32>)
    ensures |r| == 4
  {
    [Low(digest), High(digest), COVERAGE_LOW, COVERAGE_HIGH]
  }

  lemma CoveredDeltaHead(baseSum: U64, meta: Meta, g: Geometry, bodyLen: nat, sum: U64, sum': U64, digest: U64, reserved: seq<U32>)
    requires |reserved| == 4
    ensures var w := DeltaHead(baseSum, meta, g, bodyLen, sum, reserved)[30 := COVERAGE_LOW][31 := COVERAGE_HIGH];
      With64(With64(w, 28, digest), 25, sum') == DeltaHead(baseSum, meta, g, bodyLen, sum', DeltaCoverageWords(digest))
  {
    HalvesOf(digest);
    HalvesOf(sum');
  }

  /** A stamped delta stays the delta of the same edits: its digest and its checksum have places of their own. */
  method PrepareDeltaCoverage(host: Host, b: array<Byte>, digest: U64, ghost x: Diff, ghost baseSum: U64, ghost meta: Meta, ghost reserved: seq<U32>)
    requires IsDelta(host, b[..], x, baseSum, meta, reserved)
    modifies b
    ensures IsDelta(host, b[..], x, baseSum, meta, DeltaCoverageWords(digest))
  {
    hide DeltaViewOf, DeltaHead, AppendedTable, DeltaPoolOf, TailOf, Checksum, With64, DeltaCoverageWords, ShapeOf, GeometryOf, DeltaLength;
    ghost var h := ShapeOf(x);
    PutDeltaHead(b, h, 30, COVERAGE_LOW);
    PutDeltaHead(b, h, 31, COVERAGE_HIGH);
    PutDeltaHead64(b, h, 28, digest);
    ghost var sum := Checksum(host, old(b[..]), 100);
    SealDelta(host, b, h);
    CoveredDeltaHead(baseSum, meta, GeometryOf(x), DeltaLength(h) - HEADER, sum, Checksum(host, b[..], 100), digest, reserved);
  }

  // -- What a reader finds there -----------------------------------------------------------------

  /** How a header refers to its coverage, by the extension's name and the digest at `off`. */
  function BindingIn(b: Text, off: nat): (r: Publication.Binding)
    requires |b| >= HEADER && off + 8 <= HEADER
  {
    if U32At(b, 120) == COVERAGE_LOW && U32At(b, 124) == COVERAGE_HIGH then Publication.Bound(U64At(b, off))
    else if U64At(b, 120) == 0 && U64At(b, off) == 0 then Publication.Legacy
    else Publication.Unknown
  }

  lemma Digit(p: Byte, x: nat, q: Byte, y: nat)
    requires p + 0x100 * x == q + 0x100 * y
    ensures p == q && x == y
  {
  }

  lemma WordIsBytes(b: Text, off: nat, p: Byte, q: Byte, r: Byte, s: Byte)
    requires off + 4 <= |b|
    ensures U32At(b, off) == Word(p, q, r, s) <==> b[off] == p && b[off + 1] == q && b[off + 2] == r && b[off + 3] == s
  {
    WordsDiffer(b[off], b[off + 1], b[off + 2], b[off + 3], p, q, r, s);
  }

  lemma WordsDiffer(a: Byte, b: Byte, c: Byte, d: Byte, p: Byte, q: Byte, r: Byte, s: Byte)
    ensures Word(a, b, c, d) == Word(p, q, r, s) ==> a == p && b == q && c == r && d == s
  {
    if Word(a, b, c, d) == Word(p, q, r, s) {
      Digit(a, b + 0x100 * (c + 0x100 * d), p, q + 0x100 * (r + 0x100 * s));
      Digit(b, c + 0x100 * d, q, r + 0x100 * s);
      Digit(c, d, r, s);
    }
  }

  lemma FourBytes(b: Text, off: nat, word: Text)
    requires off + 4 <= |b| && |word| == 4
    ensures b[off..off + 4] == word <==> U32At(b, off) == Word(word[0], word[1], word[2], word[3])
  {
    hide U32At, Word;
    WordIsBytes(b, off, word[0], word[1], word[2], word[3]);
    var x := b[off..off + 4];
    assert x[0] == b[off] && x[1] == b[off + 1] && x[2] == b[off + 2] && x[3] == b[off + 3];
  }

  /** The last eight header bytes name the extension or are zero; anything else is refused, and so is a digest without the name. */
  lemma BindingMeans(b: Text, off: nat)
    requires |b| >= HEADER && off + 8 <= HEADER
    ensures BindingIn(b, off) == if b[120..128] == [81, 67, 67, 79, 86, 48, 48, 49] then Publication.Bound(U64At(b, off))
                                 else if b[120..128] == [0, 0, 0, 0, 0, 0, 0, 0] && U64At(b, off) == 0 then Publication.Legacy else Publication.Unknown
  {
    hide Word, U32At, U64At;
    var low, high := b[120..124], b[124..128];
    assert b[120..128] == low + high;
    FourBytes(b, 120, [81, 67, 67, 79]);
    FourBytes(b, 124, [86, 48, 48, 49]);
    FourBytes(b, 120, [0, 0, 0, 0]);
    FourBytes(b, 124, [0, 0, 0, 0]);
    ZeroWord();
    ZeroHalves(b, 120);
    BothHalves(low, high);
  }

  lemma ZeroWord()
    ensures Word(0, 0, 0, 0) == 0
  {
  }

  lemma ZeroHalves(b: Text, off: nat)
    requires off + 8 <= |b|
    ensures U64At(b, off) == 0 <==> U32At(b, off) == 0 && U32At(b, off + 4) == 0
  {
    hide U32At;
  }

  lemma BothHalves(low: Text, high: Text)
    requires |low| == |high| == 4
    ensures low + high == [81, 67, 67, 79, 86, 48, 48, 49] <==> low == [81, 67, 67, 79] && high == [86, 48, 48, 49]
    ensures low + high == [0, 0, 0, 0, 0, 0, 0, 0] <==> low == [0, 0, 0, 0] && high == [0, 0, 0, 0]
  {
    var all := low + high;
    assert all[..4] == low && all[4..] == high;
    var magic, zero: Text := [81, 67, 67, 79, 86, 48, 48, 49], [0, 0, 0, 0, 0, 0, 0, 0];
    assert magic[..4] == [81, 67, 67, 79] && magic[4..] == [86, 48, 48, 49] && zero[..4] == [0, 0, 0, 0] && zero[4..] == [0, 0, 0, 0];
    assert magic == magic[..4] + magic[4..] && zero == zero[..4] + zero[4..];
  }

  /** A written base is bound to no list until it is stamped, and then to the list of that digest. */
  lemma BaseBinding(b: Text, l: Layout, meta: Meta, sum: U64, reserved: seq<U32>, digest: U64, salt: U64, old_: seq<U32>)
    requires |b| >= HEADER && HeadFits(l) && |reserved| == |old_| == 8 && WordsAt(b, 0, HEAD_WORDS) == HeadTable(l, meta, sum, reserved)
    ensures reserved == CoverageWords(digest, salt, old_) ==> BindingIn(b, 96) == Publication.Bound(digest)
    ensures reserved == NoWords(8) ==> BindingIn(b, 96) == Publication.Legacy
  {
    hide U32At;
    var w := WordsAt(b, 0, HEAD_WORDS);
    assert w[24] == U32At(b, 96) && w[25] == U32At(b, 100) && w[30] == U32At(b, 120) && w[31] == U32At(b, 124);
    assert w[24] == reserved[0] && w[25] == reserved[1] && w[30] == reserved[6] && w[31] == reserved[7];
    HalvesOf(digest);
  }

  /** A stamped base keeps the salt it has, or gets the one drawn for it: rewrites of the same tree under different salts differ. */
  lemma BaseSalt(b: Text, l: Layout, meta: Meta, sum: U64, digest: U64, salt: U64, before: seq<U32>)
    requires |b| >= HEADER && HeadFits(l) && |before| == 8 && WordsAt(b, 0, HEAD_WORDS) == HeadTable(l, meta, sum, CoverageWords(digest, salt, before))
    ensures U64At(b, 104) == if before[2] == 0 && before[3] == 0 then salt else before[2] + TWO_TO_THE_32 * before[3]
    ensures U32At(b, 112) == before[4] && U32At(b, 116) == before[5]
  {
    hide U32At;
    var w := WordsAt(b, 0, HEAD_WORDS);
    assert w[26] == U32At(b, 104) && w[27] == U32At(b, 108) && w[28] == U32At(b, 112) && w[29] == U32At(b, 116);
    HalvesOf(salt);
  }

  lemma DeltaBinding(b: Text, baseSum: U64, meta: Meta, g: Geometry, bodyLen: nat, sum: U64, reserved: seq<U32>, digest: U64)
    requires |b| >= HEADER && |reserved| == 4 && WordsAt(b, 0, HEAD_WORDS) == DeltaHead(baseSum, meta, g, bodyLen, sum, reserved)
    ensures reserved == DeltaCoverageWords(digest) ==> BindingIn(b, 112) == Publication.Bound(digest)
    ensures reserved == NoWords(4) ==> BindingIn(b, 112) == Publication.Legacy
  {
    hide U32At;
    var w := WordsAt(b, 0, HEAD_WORDS);
    assert w[28] == U32At(b, 112) && w[29] == U32At(b, 116) && w[30] == U32At(b, 120) && w[31] == U32At(b, 124);
    assert w[28] == reserved[0] && w[29] == reserved[1] && w[30] == reserved[2] && w[31] == reserved[3];
    HalvesOf(digest);
  }
}
