/** The bytes of a delta file, as a function of the edited tree and its base. */
module DeltaImage {
  import opened Words
  import opened Slots
  import opened Bytes
  import opened ChildRows
  import opened Validation
  import opened BaseFormat
  import opened Interning
  import opened BaseImage
  import opened DeltaFormat

  const PATCH_WORDS: nat := 7
  const DELTA_MAGIC_LOW: U32 := Word(81, 67, 68, 76)
  const DELTA_MAGIC_HIGH: U32 := Word(84, 86, 48, 49)

  // -- What a delta says --------------------------------------------------------------------

  /** Base ids below n whose slots differ, in order. */
  function ChangedIds(s: Arena, t: Arena, n: nat): (r: seq<nat>)
    requires n <= |s| <= |t|
    ensures Ascending(r) && forall k :: 0 <= k < |r| ==> r[k] < n
    ensures forall i :: i in r <==> 0 <= i < n && t[i] != s[i]
  {
    if n == 0 then [] else
      var r := ChangedIds(s, t, n - 1);
      if t[n - 1] != s[n - 1] then r + [n - 1] else r
  }

  /** p has a child among the appended nodes. */
  predicate HasNewChild(t: Arena, bn: nat, p: nat)
  {
    var r := ChildIds(t, p, |t|);
    r != [] && r[|r| - 1] >= bn
  }

  /** The complete child lists of the parents below m that have an appended child, in parent order. */
  function NewLists(t: Arena, bn: nat, m: nat): (r: seq<KidList>)
    requires m <= |t| <= PARENT_LIMIT
  {
    if m == 0 then [] else
      var r := NewLists(t, bn, m - 1);
      if HasNewChild(t, bn, m - 1) then r + [KidList(m - 1, ChildIds(t, m - 1, |t|))] else r
  }

  // -- Words ------------------------------------------------------------------------------------

  function PatchWord(t: Arena, offs: seq<nat>, id: nat, k: nat): U32
    requires Narrow(t) && id < |t| && id < |offs| && k < PATCH_WORDS
  {
    if k == 0 then id % TWO_TO_THE_32 else RecordWord(t[id], offs[id], k - 1)
  }

  predicate IdsIn(ids: seq<nat>, n: nat)
  {
    forall k :: 0 <= k < |ids| ==> ids[k] < n
  }

  function PatchTable(t: Arena, offs: seq<nat>, ids: seq<nat>): (r: seq<U32>)
    requires Narrow(t) && IdsIn(ids, |t|) && IdsIn(ids, |offs|)
    ensures |r| == PATCH_WORDS * |ids|
    ensures forall m :: 0 <= m < |r| ==> r[m] == PatchWord(t, offs, ids[m / PATCH_WORDS], m % PATCH_WORDS)
  {
    seq(PATCH_WORDS * |ids|, (m: nat) requires m < PATCH_WORDS * |ids| => PatchWord(t, offs, ids[m / PATCH_WORDS], m % PATCH_WORDS))
  }

  function ListWords(r: KidList): seq<nat>
  {
    [r.parent, |r.kids|] + r.kids
  }

  function ListTable(lists: seq<KidList>): (w: seq<nat>)
  {
    if lists == [] then [] else ListWords(lists[0]) + ListTable(lists[1..])
  }

  function DeltaTail(t: Arena, offs: seq<nat>, ids: seq<nat>, lists: seq<KidList>): seq<nat>
    requires Narrow(t) && IdsIn(ids, |t|) && IdsIn(ids, |offs|)
  {
    PatchTable(t, offs, ids) + ListTable(lists)
  }

  function Low(v: nat): U32 { v % TWO_TO_THE_32 }
  function High(v: nat): U32 { v / TWO_TO_THE_32 % TWO_TO_THE_32 }

  function DeltaHead(baseSum: U64, meta: Meta, g: Geometry, bodyLen: nat, sum: U64, reserved: seq<U32>): (r: seq<U32>)
    requires |reserved| == 4
    ensures |r| == HEAD_WORDS
  {
    [DELTA_MAGIC_LOW, DELTA_MAGIC_HIGH, 1, Low(baseSum), High(baseSum), Low(meta.lastEvent), High(meta.lastEvent),
     Low(meta.scannedAt), High(meta.scannedAt), Low(meta.files), High(meta.files), Low(meta.dirs), High(meta.dirs),
     Low(meta.totalSize), High(meta.totalSize), Low(g.n), High(g.n), Low(g.poolLen), High(g.poolLen),
     Low(g.patches), High(g.patches), Low(g.lists), High(g.lists), Low(bodyLen), High(bodyLen), Low(sum), High(sum), 0,
     reserved[0], reserved[1], reserved[2], reserved[3]]
  }

  // -- The file -----------------------------------------------------------------------------------

  /** A delta cut into its word tables and the pool between them. */
  datatype DeltaView = DeltaView(head: seq<U32>, records: seq<U32>, pool: Text, tail: seq<nat>)

  datatype Shape = Shape(n: nat, poolLen: nat, tail: nat)

  function TailStart(h: Shape): nat { HEADER + h.n * 24 + h.poolLen }
  function DeltaLength(h: Shape): nat { TailStart(h) + 4 * h.tail }

  function DeltaViewOf(b: Text, h: Shape): (r: DeltaView)
    requires |b| == DeltaLength(h)
    ensures |r.head| == HEAD_WORDS && |r.records| == RECORD_WORDS * h.n && |r.pool| == h.poolLen && |r.tail| == h.tail
  {
    DeltaView(WordsAt(b, 0, HEAD_WORDS), WordsAt(b, HEADER, RECORD_WORDS * h.n), b[HEADER + h.n * 24..TailStart(h)], WordsAt(b, TailStart(h), h.tail))
  }

  /** The edited tree a delta is written from, and the lists both writers emit. */
  datatype Diff = Diff(t: Arena, bn: nat, offs: seq<nat>, ids: seq<nat>, lists: seq<KidList>)

  lemma AppendedAreNarrow(x: Diff)
    requires Narrow(x.t) && x.bn <= |x.t|
    ensures Narrow(x.t[x.bn..]) && ShortNames(NamesOf(x.t[x.bn..]))
  {
  }

  function DeltaPoolOf(x: Diff): Text
    requires Narrow(x.t) && x.bn <= |x.t|
  {
    AppendedAreNarrow(x);
    InternAll(NamesOf(x.t[x.bn..])).pool
  }

  function TailOf(x: Diff): seq<nat>
    requires Narrow(x.t) && x.bn <= |x.t| && |x.offs| == x.bn && IdsIn(x.ids, x.bn)
  {
    DeltaTail(x.t, x.offs, x.ids, x.lists)
  }

  function ShapeOf(x: Diff): Shape
    requires Narrow(x.t) && x.bn <= |x.t| && |x.offs| == x.bn && IdsIn(x.ids, x.bn)
  {
    Shape(|x.t| - x.bn, |DeltaPoolOf(x)|, |TailOf(x)|)
  }

  function GeometryOf(x: Diff): Geometry
    requires Narrow(x.t) && x.bn <= |x.t|
  {
    Geometry(|x.t| - x.bn, |DeltaPoolOf(x)|, |x.ids|, |x.lists|)
  }

  predicate Writable(x: Diff)
  {
    && Narrow(x.t) && x.bn <= |x.t| <= PARENT_LIMIT && |x.offs| == x.bn && IdsIn(x.ids, x.bn)
    && DeltaLength(ShapeOf(x)) <= MAX_U64
  }

  function AppendedTable(x: Diff): seq<U32>
    requires Narrow(x.t) && x.bn <= |x.t|
  {
    AppendedAreNarrow(x);
    RecordTable(x.t[x.bn..], Offsets(NamesOf(x.t[x.bn..])))
  }

  function DeltaImageView(x: Diff, baseSum: U64, meta: Meta, sum: U64, reserved: seq<U32>): DeltaView
    requires Writable(x) && |reserved| == 4
  {
    DeltaView(DeltaHead(baseSum, meta, GeometryOf(x), DeltaLength(ShapeOf(x)) - HEADER, sum, reserved), AppendedTable(x), DeltaPoolOf(x), TailOf(x))
  }

  /** b is the delta for these edits, with its own checksum in place. */
  ghost predicate IsDelta(host: Host, b: Text, x: Diff, baseSum: U64, meta: Meta, reserved: seq<U32>)
  {
    && Writable(x) && |reserved| == 4 && |b| == DeltaLength(ShapeOf(x)) && |b| >= HEADER
    && DeltaViewOf(b, ShapeOf(x)) == DeltaImageView(x, baseSum, meta, Checksum(host, b, 100), reserved)
  }
}
