/** The v7 base file: what its bytes say, and when a reader may believe them. */
module BaseFormat {
  import opened Words
  import opened Forest
  import opened Slots
  import Ancestors
  import opened Bytes
  import opened ChildRows
  import opened Validation

  const BASE_MAGIC: Text := [81, 67, 73, 68, 88, 86, 48, 55]
  const HEADER: nat := 128
  const USED_BIT: int := 0x4000_0000
  const DIR_BIT: int := 0x8000_0000

  datatype Meta = Meta(lastEvent: U64, scannedAt: U64, files: U64, dirs: U64, totalSize: U64)
  datatype Volume = Volume(mount: Text, name: Text)

  function Zeros(n: nat): (r: Text)
    ensures |r| == n && forall i :: 0 <= i < n ==> r[i] == 0
  {
    seq(n, i => 0)
  }

  /** The file checksum: its own eight bytes count as zero. */
  function Checksum(host: Host, b: Text, off: nat): U64
    requires off + 8 <= |b|
  {
    host.hash(Splice(b, off, Zeros(8)))
  }

  // -- Sections ---------------------------------------------------------------------------

  datatype Layout = Layout(n: nat, poolLen: nat, kidCount: nat, mountLen: nat, nameLen: nat, po: nat, eo: nat, cs: nat, ca: nat)

  function ReadLayout(b: Text): Layout
    requires |b| >= HEADER
  {
    Layout(U32At(b, 12), U32At(b, 16), U32At(b, 20), U32At(b, 24), U32At(b, 28), U32At(b, 80), U32At(b, 84), U32At(b, 88), U32At(b, 92))
  }

  function ReadMeta(b: Text): Meta
    requires |b| >= HEADER
  {
    Meta(U64At(b, 56), U64At(b, 64), U64At(b, 32), U64At(b, 40), U64At(b, 48))
  }

  datatype Section = Section(off: nat, size: nat)

  function Sections(l: Layout): seq<Section>
  {
    [Section(0, HEADER + l.mountLen + l.nameLen), Section(l.po, l.poolLen), Section(l.eo, l.n * 24),
     Section(l.cs, (l.n + 1) * 4), Section(l.ca, l.kidCount * 4)]
  }

  predicate Apart(x: Section, y: Section)
  {
    x.off + x.size <= y.off || y.off + y.size <= x.off
  }

  /** Every section ends inside the file. */
  predicate InFile(l: Layout, length: nat)
  {
    && HEADER + l.mountLen + l.nameLen <= length && l.po + l.poolLen <= length && l.eo + l.n * 24 <= length
    && l.cs + (l.n + 1) * 4 <= length && l.ca + l.kidCount * 4 <= length
  }

  /** No section aliases another. */
  ghost predicate Disjoint(sections: seq<Section>)
  {
    forall i, j :: 0 <= i < j < |sections| ==> Apart(sections[i], sections[j])
  }

  predicate Aligned(l: Layout)
  {
    0 < l.n <= PARENT_LIMIT && l.eo % 8 == 0 && l.cs % 4 == 0 && l.ca % 4 == 0
  }

  ghost predicate HeaderOk(host: Host, b: Text, mount: Text)
  {
    && |b| >= HEADER && b[..8] == BASE_MAGIC && U32At(b, 8) == 7
    && U64At(b, 72) != 0 && Checksum(host, b, 72) == U64At(b, 72)
    && var l := ReadLayout(b);
       && Aligned(l) && InFile(l, |b|) && Disjoint(Sections(l))
       && b[HEADER..HEADER + l.mountLen] == mount
       && host.utf8(b[HEADER..HEADER + l.mountLen + l.nameLen])
  }

  // -- Records ------------------------------------------------------------------------------

  /** The pool entry at off: a length prefix and that many bytes, all inside the pool. */
  function NameIn(pool: Text, off: nat): (r: Option<Name>)
    ensures r.Some? ==> off + 2 + |r.value| <= |pool| && |r.value| <= MAX_U16
  {
    if off + 2 > |pool| then None
    else if off + 2 + U16At(pool, off) > |pool| then None
    else Some(pool[off + 2..off + 2 + U16At(pool, off)])
  }

  function Pool(b: Text, l: Layout): Text
    requires InFile(l, |b|)
  {
    b[l.po..l.po + l.poolLen]
  }

  function BitsParent(bits: U32): (p: U32) ensures p < PARENT_LIMIT { bits % USED_BIT }
  function BitsUsed(bits: U32): bool { bits / USED_BIT % 2 == 1 }
  function BitsDir(bits: U32): bool { bits / DIR_BIT == 1 }

  /** The slot a record holds, given its name. */
  function SlotIn(b: Text, at: nat, name: Name): Slot
    requires at + 24 <= |b|
  {
    var bits := U32At(b, at);
    Slot(BitsParent(bits), name, BitsDir(bits), U64At(b, at + 8), BitsUsed(bits), U32At(b, at + 16), U32At(b, at + 20))
  }

  predicate RecordOk(host: Host, b: Text, l: Layout, i: nat)
    requires InFile(l, |b|) && i < l.n
  {
    var name := NameIn(Pool(b, l), U32At(b, l.eo + i * 24 + 4));
    name.Some? && host.utf8(name.value) && BitsUsed(U32At(b, l.eo + i * 24))
  }

  function NameOr(r: Option<Name>): Name
  {
    if r.Some? then r.value else []
  }

  function RecordAt(b: Text, l: Layout, i: nat): Slot
    requires InFile(l, |b|) && i < l.n
  {
    SlotIn(b, l.eo + i * 24, NameOr(NameIn(Pool(b, l), U32At(b, l.eo + i * 24 + 4))))
  }

  /** The slots a file describes. */
  function Records(b: Text, l: Layout): (r: Arena)
    requires InFile(l, |b|)
    ensures |r| == l.n
    ensures forall i :: 0 <= i < l.n ==> r[i] == RecordAt(b, l, i)
  {
    seq(l.n, (i: nat) requires i < l.n => RecordAt(b, l, i))
  }

  function NameOffsets(b: Text, l: Layout): (r: seq<U32>)
    requires InFile(l, |b|)
    ensures |r| == l.n
    ensures forall i :: 0 <= i < l.n ==> r[i] == U32At(b, l.eo + i * 24 + 4)
  {
    seq(l.n, (i: nat) requires i < l.n => U32At(b, l.eo + i * 24 + 4))
  }

  // -- Child table ----------------------------------------------------------------------------

  function Starts(b: Text, l: Layout): (r: seq<U32>)
    requires InFile(l, |b|)
    ensures |r| == l.n + 1
  {
    WordsAt(b, l.cs, l.n + 1)
  }

  function Flat(b: Text, l: Layout): (r: seq<U32>)
    requires InFile(l, |b|)
    ensures |r| == l.kidCount
  {
    WordsAt(b, l.ca, l.kidCount)
  }

  /** Entry j of the flat table belongs to row i. */
  predicate Listed(s: Arena, flat: seq<U32>, i: nat, j: nat)
    requires j < |flat|
  {
    0 < flat[j] < |s| && s[flat[j]].parent == i
  }

  /** The rows partition the table, and the table lists every node but the root once, under its parent. */
  ghost predicate RowsOk(s: Arena, starts: seq<U32>, flat: seq<U32>)
  {
    && |starts| == |s| + 1 && starts[0] == 0 && starts[|s|] == |flat|
    && (forall i {:trigger starts[i]} :: 0 <= i < |s| ==> starts[i] <= starts[i + 1] <= |flat|)
    && (forall i: nat, j: nat {:trigger Listed(s, flat, i, j)} :: i < |s| && starts[i] <= j < starts[i + 1] <= |flat| ==> Listed(s, flat, i, j))
    && Distinct(flat)
    && (forall c :: 0 < c < |s| ==> c in flat)
  }

  // -- Acceptance ---------------------------------------------------------------------------------

  datatype Decoded = Decoded(slots: Arena, rows: Rows, nameOffs: seq<nat>, meta: Meta, checksum: U64)

  /** The records, the tree they form, the child table and the counts. */
  ghost predicate BodyOk(host: Host, b: Text, l: Layout)
    requires |b| >= HEADER && InFile(l, |b|)
  {
    && (forall i :: 0 <= i < l.n ==> RecordOk(host, b, l, i))
    && ValidTree(host, Records(b, l), true)
    && RowsOk(Records(b, l), Starts(b, l), Flat(b, l))
    && ReadMeta(b).files == CountKind(Records(b, l), false) && ReadMeta(b).dirs == CountKind(Records(b, l), true)
  }

  /** A base file a reader accepts for this mount. */
  ghost predicate Accepts(host: Host, b: Text, mount: Text)
  {
    HeaderOk(host, b, mount) && BodyOk(host, b, ReadLayout(b))
  }

  /** What an accepted file means. Child rows are in slot order whatever order the file lists them in. */
  ghost function Denotes(b: Text): Decoded
    requires |b| >= HEADER && InFile(ReadLayout(b), |b|)
  {
    var l := ReadLayout(b);
    Decoded(Records(b, l), CanonRows(Records(b, l)), NameOffsets(b, l), ReadMeta(b), U64At(b, 72))
  }

  // -- Acceptance in plain bytes --------------------------------------------------------------------

  /** The eight bytes at this place hash the rest of the file, taken as zero themselves. */
  ghost predicate Sealed(host: Host, b: Text, at: nat)
  {
    && at + 8 <= |b| && U64At(b, at) != 0
    && host.hash(b[..at] + [0, 0, 0, 0, 0, 0, 0, 0] + b[at + 8..]) == U64At(b, at)
  }

  /** The five stretches of a file a header names, its own first, each with its end. */
  function Stretches(b: Text): (r: seq<(nat, nat)>)
    requires |b| >= 128
    ensures |r| == 5
  {
    [(0, 128 + U32At(b, 24) + U32At(b, 28)), (U32At(b, 80), U32At(b, 80) + U32At(b, 16)), (U32At(b, 84), U32At(b, 84) + U32At(b, 12) * 24),
     (U32At(b, 88), U32At(b, 88) + (U32At(b, 12) + 1) * 4), (U32At(b, 92), U32At(b, 92) + U32At(b, 20) * 4)]
  }

  ghost predicate Fitting(spans: seq<(nat, nat)>, length: nat)
  {
    && (forall i :: 0 <= i < |spans| ==> spans[i].1 <= length)
    && forall i, j :: 0 <= i < j < |spans| ==> spans[i].1 <= spans[j].0 || spans[j].1 <= spans[i].0
  }

  /** A header readers believe, byte by byte: it names its version, hashes the file, carries the mount and points to five stretches apart. */
  ghost predicate Headed(host: Host, b: Text, mount: Text)
  {
    && |b| >= 128 && b[..8] == [81, 67, 73, 68, 88, 86, 48, 55] && U32At(b, 8) == 7 && Sealed(host, b, 72)
    && 1 <= U32At(b, 12) <= 0x4000_0000 && U32At(b, 84) % 8 == 0 && U32At(b, 88) % 4 == 0 && U32At(b, 92) % 4 == 0
    && Fitting(Stretches(b), |b|)
    && U32At(b, 24) == |mount| && 128 + |mount| + U32At(b, 28) <= |b|
    && b[128..128 + |mount|] == mount && host.utf8(b[128..128 + |mount| + U32At(b, 28)])
  }

  lemma SpansOf(ss: seq<Section>, spans: seq<(nat, nat)>, length: nat)
    requires |ss| == |spans| && forall i :: 0 <= i < |ss| ==> spans[i] == (ss[i].off, ss[i].off + ss[i].size)
    ensures Fitting(spans, length) <==> Disjoint(ss) && forall i :: 0 <= i < |ss| ==> ss[i].off + ss[i].size <= length
  {
  }

  lemma AllFive(ss: seq<Section>, length: nat)
    requires |ss| == 5
    ensures (forall i :: 0 <= i < |ss| ==> ss[i].off + ss[i].size <= length)
       <==> ss[0].off + ss[0].size <= length && ss[1].off + ss[1].size <= length && ss[2].off + ss[2].size <= length
            && ss[3].off + ss[3].size <= length && ss[4].off + ss[4].size <= length
  {
  }

  lemma HeaderIsHeaded(host: Host, b: Text, mount: Text)
    ensures HeaderOk(host, b, mount) <==> Headed(host, b, mount)
  {
    hide U32At, U64At, Fitting, Disjoint;
    if |b| >= HEADER {
      assert Zeros(8) == [0, 0, 0, 0, 0, 0, 0, 0];
      var ss := Sections(ReadLayout(b));
      SpansOf(ss, Stretches(b), |b|);
      AllFive(ss, |b|);
    }
  }

  /** Where the bytes of an accepted file put each field of node i. */
  ghost predicate NodeBytes(b: Text, i: nat, e: Slot, off: nat)
    requires |b| >= 128 && U32At(b, 84) + 24 * i + 24 <= |b| && U32At(b, 80) + U32At(b, 16) <= |b|
  {
    var at, pool := U32At(b, 84) + 24 * i, b[U32At(b, 80)..U32At(b, 80) + U32At(b, 16)];
    && e.parent == U32At(b, at) % 0x4000_0000 && (e.isDir <==> U32At(b, at) >= 0x8000_0000) && e.used
    && off == U32At(b, at + 4) && off + 2 <= |pool| && off + 2 + U16At(pool, off) <= |pool| && e.name == pool[off + 2..off + 2 + U16At(pool, off)]
    && e.size == U64At(b, at + 8) && e.mtime == U32At(b, at + 16) && e.files == U32At(b, at + 20)
  }

  /** What an accepted file means, read off its bytes. */
  lemma AcceptedBytes(host: Host, b: Text, mount: Text)
    requires Accepts(host, b, mount)
    ensures Headed(host, b, mount) && InFile(ReadLayout(b), |b|)
    ensures var d := Denotes(b);
      && |d.slots| == |d.rows| == |d.nameOffs| == U32At(b, 12)
      && (forall i: nat :: i < |d.slots| ==> U32At(b, 84) + 24 * i + 24 <= |b| && NodeBytes(b, i, d.slots[i], d.nameOffs[i]) && host.utf8(d.slots[i].name))
      && d.checksum == U64At(b, 72)
      && d.meta == Meta(U64At(b, 56), U64At(b, 64), U64At(b, 32), U64At(b, 40), U64At(b, 48))
  {
    hide U32At, U64At, U16At, Headed, ValidTree, RowsOk, CountKind, HeaderOk, CanonRows;
    HeaderIsHeaded(host, b, mount);
    AcceptedLength(host, b, mount);
    var l, d := ReadLayout(b), Denotes(b);
    forall i: nat | i < l.n ensures U32At(b, 84) + 24 * i + 24 <= |b| && NodeBytes(b, i, d.slots[i], d.nameOffs[i]) && host.utf8(d.slots[i].name) {
      assert RecordOk(host, b, l, i);
      assert d.slots[i] == RecordAt(b, l, i);
    }
  }

  lemma AcceptedLength(host: Host, b: Text, mount: Text)
    requires HeaderOk(host, b, mount)
    ensures |b| >= HEADER && InFile(ReadLayout(b), |b|)
  {
  }

  // -- What acceptance guarantees ------------------------------------------------------------------

  /** A parent-first tree of safely named live nodes, rooted at 0 and free of cycles. */
  ghost predicate SoundTree(host: Host, s: Arena)
  {
    && IsDir(s, 0) && s[0].parent == 0 && Acyclic(Edges(s))
    && (forall i :: 0 < i < |s| ==> s[i].used && SafeName(host, s[i].name) && s[i].parent < i && IsDir(s, s[i].parent))
    && (forall i: nat :: 0 < i < |s| ==> AtOrBelow(Edges(s), i, 0))
  }

  lemma LiveValidIsSound(host: Host, s: Arena)
    requires ValidTree(host, s, true) && forall i :: 0 <= i < |s| ==> s[i].used
    ensures SoundTree(host, s)
  {
    ValidIsWellFormed(host, s, true);
    forall i: nat | 0 < i < |s|
      ensures SafeName(host, s[i].name) && s[i].parent < i && IsDir(s, s[i].parent)
      ensures AtOrBelow(Edges(s), i, 0)
    {
      assert LinkOk(host, s, i, true);
      Ancestors.LiveBelowRoot(s, i);
    }
  }

  lemma AcceptedAreLive(host: Host, b: Text, l: Layout)
    requires |b| >= HEADER && InFile(l, |b|) && BodyOk(host, b, l)
    ensures forall i :: 0 <= i < l.n ==> Records(b, l)[i].used
  {
    forall i | 0 <= i < l.n ensures Records(b, l)[i].used {
      assert RecordOk(host, b, l, i);
    }
  }

  /** An accepted file describes an acyclic tree of safely named nodes. */
  lemma AcceptedIsTree(host: Host, b: Text, mount: Text)
    requires Accepts(host, b, mount)
    ensures SoundTree(host, Denotes(b).slots)
  {
    hide RecordOk, RecordAt, RowsOk, ValidTree, SoundTree;
    AcceptedAreLive(host, b, ReadLayout(b));
    LiveValidIsSound(host, Denotes(b).slots);
  }

  /** c stands at exactly one place of the table. */
  ghost predicate StandsOnce(flat: seq<U32>, c: nat)
  {
    exists j: nat :: j < |flat| && flat[j] == c && forall j': nat :: j' < |flat| && flat[j'] == c ==> j' == j
  }

  /** In an accepted file every node but the root stands in exactly one child row, its parent's, and there once. */
  lemma AcceptedRows(host: Host, b: Text, mount: Text, c: nat)
    requires Accepts(host, b, mount) && 0 < c < |Denotes(b).slots|
    ensures StandsOnce(Flat(b, ReadLayout(b)), c)
    ensures forall p: nat :: p < |Denotes(b).rows| ==> (c in Denotes(b).rows[p] <==> p == Denotes(b).slots[c].parent)
  {
    hide RecordOk, RecordAt, ValidTree;
    AcceptedIsTree(host, b, mount);
    RowsListOnce(Records(b, ReadLayout(b)), Starts(b, ReadLayout(b)), Flat(b, ReadLayout(b)), c);
    CanonListsChild(host, Denotes(b).slots, c);
  }

  lemma RowsListOnce(s: Arena, starts: seq<U32>, flat: seq<U32>, c: nat)
    requires RowsOk(s, starts, flat) && 0 < c < |s|
    ensures StandsOnce(flat, c)
  {
    assert c in flat;
    var j :| 0 <= j < |flat| && flat[j] == c;
    assert forall j': nat :: j' < |flat| && flat[j'] == c ==> j' == j;
  }

  lemma CanonListsChild(host: Host, s: Arena, c: nat)
    requires SoundTree(host, s) && 0 < c < |s|
    ensures forall p: nat :: p < |s| ==> (c in CanonRows(s)[p] <==> p == s[c].parent)
  {
    assert HeapEdge(s, c) == Some(s[c].parent as nat);
  }
}
