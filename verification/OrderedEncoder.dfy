/** The encoder for parent-first trees: counts children in the output table itself, then places them. */
module OrderedEncoder {
  import opened Words
  import opened Slots
  import opened Bytes
  import opened ChildRows
  import opened Validation
  import opened Grafting
  import opened BaseFormat
  import opened Interning
  import opened BaseImage
  import opened BaseRoundTrip
  import opened Compaction
  import opened BaseBuffer

  /** remap sends each listed id to its place in the list. */
  ghost predicate Remaps(order: seq<nat>, remap: seq<nat>, n: nat)
  {
    |remap| == n && forall k :: 0 <= k < |order| ==> order[k] < n && remap[order[k]] == k
  }

  /** c is s compacted along order, and remap inverts order. */
  ghost predicate Ready(host: Host, s: Arena, order: seq<nat>, remap: seq<nat>, c: Arena)
  {
    && ValidTree(host, s, false) && Ordering(s, order) && Remaps(order, remap, |s|)
    && c == Compact(s, order) && Compacted(host, c) && Storable(c) && |c| == |order|
  }

  lemma MakeReady(host: Host, s: Arena, order: seq<nat>, remap: seq<nat>)
    requires ValidTree(host, s, false) && Ordering(s, order) && Remaps(order, remap, |s|)
    ensures Ready(host, s, order, remap, Compact(s, order))
  {
    hide ValidTree, Ordering, Compact;
    CompactIsCompacted(host, s, order);
    CompactIsStorable(host, Compact(s, order));
    CompactRoot(s, order);
  }

  lemma CompactIsStorable(host: Host, c: Arena)
    requires Compacted(host, c)
    ensures Storable(c)
  {
    CompactedIsStorable(host, c);
  }

  /** The encoder computes slot i from the node and the remap table. */
  lemma SlotByRemap(host: Host, s: Arena, order: seq<nat>, remap: seq<nat>, c: Arena, i: nat)
    requires Ready(host, s, order, remap, c) && i < |c|
    ensures order[i] < |s| && s[order[i]].parent < |s| && remap[s[order[i]].parent] < |c|
    ensures c[i] == s[order[i]].(parent := remap[s[order[i]].parent])
    ensures c[i].name == s[order[i]].name && c[i].parent < PARENT_LIMIT
    ensures i > 0 ==> c[i].parent < i && HeapEdge(c, i) == Some(c[i].parent as nat)
  {
    hide ValidTree, Compact, Compacted, RootOk;
    CompactNode(host, s, order, i);
    OrderingFacts(s, order);
    assert order[c[i].parent] == s[order[i]].parent;
    assert s[order[i]] == s[order[i]].(parent := s[order[i]].parent);
  }

  // -- Gathering --------------------------------------------------------------------------

  /** Lists the live nodes in slot order, unless some parent does not come first. */
  method Gather(s: Arena) returns (ordered: bool, order: seq<nat>, remap: seq<nat>)
    ensures ordered <==> ParentFirst(s)
    ensures ordered ==> order == LiveIds(s, |s|) && Remaps(order, remap, |s|)
  {
    order, remap := [], seq(|s|, i => 0);
    for i := 0 to |s|
      invariant order == LiveIds(s, i) && |remap| == |s|
      invariant forall k :: 0 <= k < i && s[k].used ==> remap[k] == Rank(s, k)
      invariant forall k :: 0 < k < i && s[k].used ==> s[k].parent < k
    {
      if s[i].used {
        if i > 0 && s[i].parent >= i {
          return false, order, remap;
        }
        remap := remap[i := |order|];
        order := order + [i];
      }
    }
    ordered := true;
    forall k: nat | k < |order| ensures remap[order[k]] == k { RankOfLiveId(s, |s|, k); }
  }

  // -- Counting ----------------------------------------------------------------------------

  /** The counters after the first i nodes: at p + 1, the number of children of p seen. */
  function Counts(c: Arena, i: nat): (r: seq<nat>)
    requires i <= |c|
    ensures |r| == |c| + 1 && r[0] == 0 && forall p :: 0 <= p < |c| ==> r[p + 1] == |ChildIds(c, p, i)|
  {
    seq(|c| + 1, (q: nat) requires q <= |c| => if q == 0 then 0 else |ChildIds(c, q - 1, i)|)
  }

  lemma CountNothing(c: Arena)
    ensures Counts(c, 0) == NoWords(|c| + 1)
  {
  }

  lemma RootCounts(c: Arena)
    requires |c| > 0
    ensures Counts(c, 1) == Counts(c, 0)
  {
    forall p | 0 <= p < |c| ensures ChildIds(c, p, 1) == ChildIds(c, p, 0) {
      assert HeapEdge(c, 0).None?;
    }
  }

  lemma CountNext(c: Arena, i: nat)
    requires 0 < i < |c| && HeapEdge(c, i) == Some(c[i].parent as nat)
    ensures c[i].parent < |c| && Counts(c, i + 1) == Counts(c, i)[c[i].parent + 1 := Counts(c, i)[c[i].parent + 1] + 1]
    ensures Counts(c, i)[c[i].parent + 1] <= i
  {
    AscendingBound(ChildIds(c, c[i].parent, i), i);
  }

  lemma {:induction false} AscendingBound(r: seq<nat>, n: nat)
    requires Ascending(r) && forall a :: 0 <= a < |r| ==> r[a] < n
    ensures |r| <= n
  {
    if r != [] {
      AscendingBound(r[..|r| - 1], r[|r| - 1]);
    }
  }

  /** Writes one record and counts its node under its parent. */
  method PutNode(b: array<Byte>, l: Layout, i: nat, e: Slot, offs: seq<nat>, ghost c: Arena)
    requires Packed(l) && l.n == |c| && b.Length == FileLength(l) && RecordsTo(ViewOf(b[..], l).records, c, offs, i) && |c| <= PARENT_LIMIT
    requires i < |c| == |offs| && e == c[i] && e.parent < PARENT_LIMIT && (i > 0 ==> HeapEdge(c, i) == Some(e.parent as nat))
    requires ViewOf(b[..], l).starts == Counts(c, i)
    modifies b
    ensures RecordsTo(ViewOf(b[..], l).records, c, offs, i + 1)
    ensures ViewOf(b[..], l) == old(ViewOf(b[..], l)).(records := ViewOf(b[..], l).records, starts := Counts(c, i + 1))
  {
    hide ViewOf, Counts, RecordTable, WithRecord, RecordsTo;
    RecordsNext(ViewOf(b[..], l).records, c, offs, i);
    WriteRecord(b, l, i, e, offs[i]);
    if i > 0 {
      CountNext(c, i);
      var at := e.parent + 1;
      var n := StartAt(b, l, at);
      PutStart(b, l, at, n + 1);
    } else {
      RootCounts(c);
    }
  }

  /** Writes every record, and counts children in the start table. */
  method FillRecords(host: Host, b: array<Byte>, l: Layout, s: Arena, order: seq<nat>, remap: seq<nat>, offs: seq<nat>, ghost c: Arena)
    requires Ready(host, s, order, remap, c) && Packed(l) && l.n == |c| && b.Length == FileLength(l) && |offs| == |c|
    requires ViewOf(b[..], l).starts == NoWords(l.n + 1)
    modifies b
    ensures ViewOf(b[..], l) == old(ViewOf(b[..], l)).(records := RecordTable(c, offs), starts := Counts(c, |c|))
  {
    hide Ready, ViewOf, Counts, RecordTable, WithRecord, RecordsTo;
    ghost var v0 := ViewOf(b[..], l);
    CountNothing(c);
    ReadyFacts(host, s, order, remap, c);
    NoRecords(v0.records, c, offs);
    for i := 0 to |order|
      invariant RecordsTo(ViewOf(b[..], l).records, c, offs, i)
      invariant ViewOf(b[..], l) == v0.(records := ViewOf(b[..], l).records, starts := Counts(c, i))
    {
      SlotByRemap(host, s, order, remap, c, i);
      var e := s[order[i]].(parent := remap[s[order[i]].parent]);
      PutNode(b, l, i, e, offs, c);
    }
    RecordsDone(ViewOf(b[..], l).records, c, offs);
  }

  lemma ReadyFacts(host: Host, s: Arena, order: seq<nat>, remap: seq<nat>, c: Arena)
    requires Ready(host, s, order, remap, c)
    ensures 0 < |c| == |order| <= PARENT_LIMIT && Storable(c) && Compacted(host, c) && |remap| == |s|
  {
    hide Compacted;
  }

  lemma NoRecords(w: seq<U32>, c: Arena, offs: seq<nat>)
    requires Narrow(c) && |offs| == |c| && |w| == RECORD_WORDS * |c|
    ensures RecordsTo(w, c, offs, 0)
  {
  }

  lemma RecordsDone(w: seq<U32>, c: Arena, offs: seq<nat>)
    requires RecordsTo(w, c, offs, |c|)
    ensures w == RecordTable(c, offs)
  {
    hide RecordTable;
  }

  // -- Prefix sums --------------------------------------------------------------------------

  function SummedAt(c: Arena, i: nat, q: nat): nat
    requires i <= |c| && q <= |c|
  {
    if q <= i then |Flatten(c, q)| else Counts(c, |c|)[q]
  }

  /** Start positions up to i, counters after it. */
  function Summed(c: Arena, i: nat): (r: seq<nat>)
    requires i <= |c|
    ensures |r| == |c| + 1
    ensures forall q :: 0 <= q <= |c| ==> r[q] == SummedAt(c, i, q)
  {
    seq(|c| + 1, (q: nat) requires q <= |c| => SummedAt(c, i, q))
  }

  lemma SummedEnds(c: Arena)
    ensures Summed(c, 0) == Counts(c, |c|) && Summed(c, |c|) == StartTable(c)
  {
  }

  lemma SummedNext(host: Host, c: Arena, i: nat)
    requires Compacted(host, c) && i < |c|
    ensures Summed(c, i + 1) == Summed(c, i)[i + 1 := Summed(c, i)[i] + Summed(c, i)[i + 1]]
    ensures Summed(c, i)[i] + Summed(c, i)[i + 1] <= |c|
  {
    hide Compacted, Flatten, ChildIds;
    FlattenRow(c, i);
    FlattenSize(host, c);
    assert |Flatten(c, i + 1)| == |Flatten(c, i)| + |ChildIds(c, i, |c|)|;
    var x, y := Summed(c, i), Summed(c, i + 1);
    assert x[i] == |Flatten(c, i)| && x[i + 1] == |ChildIds(c, i, |c|)|;
    forall q: nat | q <= |c| ensures y[q] == x[i + 1 := x[i] + x[i + 1]][q] {
    }
  }

  /** Turns counters into start positions in place. */
  method SumStarts(host: Host, b: array<Byte>, l: Layout, ghost c: Arena)
    requires Compacted(host, c) && |c| <= PARENT_LIMIT && Packed(l) && l.n == |c| && b.Length == FileLength(l)
    requires ViewOf(b[..], l).starts == Counts(c, |c|)
    modifies b
    ensures ViewOf(b[..], l) == old(ViewOf(b[..], l)).(starts := StartTable(c))
  {
    hide ViewOf, Counts, Summed, Compacted;
    ghost var v0 := ViewOf(b[..], l);
    SummedEnds(c);
    for i := 0 to l.n
      invariant ViewOf(b[..], l) == v0.(starts := Summed(c, i))
    {
      SummedNext(host, c, i);
      var x := StartAt(b, l, i);
      var y := StartAt(b, l, i + 1);
      PutStart(b, l, i + 1, x + y);
    }
  }

  // -- Placing children ------------------------------------------------------------------------

  /** Cursors after the first i nodes are placed. */
  ghost predicate Cursors(c: Arena, cursors: seq<nat>, i: nat)
  {
    && i <= |c| && |cursors| == |c|
    && forall p :: 0 <= p < |c| ==> cursors[p] == |Flatten(c, p)| + |ChildIds(c, p, i)|
  }

  /** Entry j of row p is in its place. */
  ghost predicate KidAt(c: Arena, kids: seq<nat>, p: nat, row: seq<nat>, j: nat)
    requires p < |c| && j < |row|
  {
    |Flatten(c, p)| + j < |kids| && kids[|Flatten(c, p)| + j] == row[j]
  }

  /** The children among the first i nodes are in their rows. */
  ghost predicate KidsTo(c: Arena, kids: seq<nat>, i: nat)
  {
    && i <= |c| && |kids| == |Flatten(c, |c|)|
    && forall p: nat, j: nat {:trigger KidAt(c, kids, p, ChildIds(c, p, i), j)} :: p < |c| && j < |ChildIds(c, p, i)| ==> KidAt(c, kids, p, ChildIds(c, p, i), j)
  }

  lemma {:induction false} ChildIdsGrow(c: Arena, p: nat, i: nat, n: nat)
    requires i <= n <= |c|
    ensures ChildIds(c, p, i) <= ChildIds(c, p, n)
  {
    hide ChildIds;
    if i < n {
      ChildIdsGrow(c, p, i, n - 1);
      ChildStep(c, n - 1, p);
    }
  }

  /** Distinct places in rows are distinct places in the table. */
  lemma {:induction false} PlacesApart(c: Arena, p: nat, a: nat, q: nat, b: nat)
    requires p < |c| && q < |c| && a < |ChildIds(c, p, |c|)| && b < |ChildIds(c, q, |c|)|
    ensures |Flatten(c, p)| + a < |Flatten(c, |c|)| && |Flatten(c, q)| + b < |Flatten(c, |c|)|
    ensures |Flatten(c, p)| + a == |Flatten(c, q)| + b ==> p == q && a == b
  {
    hide Flatten, ChildIds;
    FlattenRow(c, p);
    FlattenRow(c, q);
    if q < p { FlattenGrows(c, q + 1, p); }
    if p < q { FlattenGrows(c, p + 1, q); }
  }

  /** Placing node i lengthens its parent's row by i and no other. */
  lemma {:induction false} RowNext(c: Arena, i: nat, q: nat)
    requires i < |c| && q < |c|
    ensures ChildIds(c, q, i + 1) == if HeapEdge(c, i) == Some(q) then ChildIds(c, q, i) + [i] else ChildIds(c, q, i)
    ensures |ChildIds(c, q, i + 1)| <= |ChildIds(c, q, |c|)|
  {
    hide ChildIds, HeapEdge;
    ChildIdsGrow(c, q, i + 1, |c|);
    ChildStep(c, i, q);
  }

  lemma {:induction false} ChildStep(c: Arena, i: nat, q: nat)
    requires i < |c|
    ensures ChildIds(c, q, i + 1) == if HeapEdge(c, i) == Some(q) then ChildIds(c, q, i) + [i] else ChildIds(c, q, i)
  {
  }

  lemma KidsNext(c: Arena, kids: seq<nat>, cursors: seq<nat>, i: nat)
    requires Cursors(c, cursors, i) && KidsTo(c, kids, i) && 0 < i < |c| && HeapEdge(c, i) == Some(c[i].parent as nat)
    ensures c[i].parent < |c| && cursors[c[i].parent] < |kids|
    ensures Cursors(c, cursors[c[i].parent := cursors[c[i].parent] + 1], i + 1) && KidsTo(c, kids[cursors[c[i].parent] := i], i + 1)
  {
    hide Flatten, ChildIds, KidAt;
    var p := c[i].parent;
    RowNext(c, i, p);
    PlacesApart(c, p, |ChildIds(c, p, i)|, p, |ChildIds(c, p, i)|);
    var kids' := kids[cursors[p] := i];
    forall q: nat, j: nat {:trigger KidAt(c, kids', q, ChildIds(c, q, i + 1), j)} | q < |c| && j < |ChildIds(c, q, i + 1)|
      ensures KidAt(c, kids', q, ChildIds(c, q, i + 1), j)
    {
      KidKept(c, kids, cursors, i, q, j);
    }
    forall q: nat | q < |c| ensures cursors[p := cursors[p] + 1][q] == |Flatten(c, q)| + |ChildIds(c, q, i + 1)| {
      RowNext(c, i, q);
    }
  }

  lemma {:induction false} KidKept(c: Arena, kids: seq<nat>, cursors: seq<nat>, i: nat, q: nat, j: nat)
    requires Cursors(c, cursors, i) && KidsTo(c, kids, i) && 0 < i < |c| && HeapEdge(c, i) == Some(c[i].parent as nat)
    requires q < |c| && j < |ChildIds(c, q, i + 1)| && c[i].parent < |c| && cursors[c[i].parent] < |kids|
    ensures KidAt(c, kids[cursors[c[i].parent] := i], q, ChildIds(c, q, i + 1), j)
  {
    hide Flatten, ChildIds;
    var p := c[i].parent;
    RowNext(c, i, q);
    RowNext(c, i, p);
    PlacesApart(c, p, |ChildIds(c, p, i)|, q, j);
    if q != p || j < |ChildIds(c, p, i)| {
      assert KidAt(c, kids, q, ChildIds(c, q, i), j);
    }
  }

  /** All rows in place is the whole table. */
  lemma {:induction false} KidsUpTo(c: Arena, kids: seq<nat>, p: nat)
    requires KidsTo(c, kids, |c|) && p <= |c| && |Flatten(c, p)| <= |kids|
    ensures kids[..|Flatten(c, p)|] == Flatten(c, p)
  {
    if p > 0 {
      KidsUpTo(c, kids, p - 1);
      var row := ChildIds(c, p - 1, |c|);
      forall j: nat | j < |row| ensures kids[|Flatten(c, p - 1)| + j] == row[j] {
        assert KidAt(c, kids, p - 1, row, j);
      }
    }
  }

  lemma {:induction false} KidsStart(c: Arena, kids: seq<nat>, cursors: seq<nat>)
    requires |c| > 0 && |kids| == |Flatten(c, |c|)| && |cursors| == |c|
    requires forall p :: 0 <= p < |c| ==> cursors[p] == |Flatten(c, p)|
    ensures Cursors(c, cursors, 1) && KidsTo(c, kids, 1)
  {
    forall p: nat | p < |c| ensures ChildIds(c, p, 1) == [] {
      assert ChildIds(c, p, 0) == [] && HeapEdge(c, 0).None?;
    }
  }

  /** Drops each node into its parent's row. */
  method PlaceKids(host: Host, b: array<Byte>, l: Layout, s: Arena, order: seq<nat>, remap: seq<nat>, ghost c: Arena)
    requires Ready(host, s, order, remap, c) && Packed(l) && l.n == |c| && b.Length == FileLength(l)
    requires ViewOf(b[..], l).starts == StartTable(c)
    modifies b
    ensures ViewOf(b[..], l) == old(ViewOf(b[..], l)).(kids := Flatten(c, |c|))
  {
    hide Ready, ViewOf, Flatten, Cursors, KidsTo, Compacted;
    ReadyFacts(host, s, order, remap, c);
    ghost var v0 := ViewOf(b[..], l);
    var cursors: seq<nat> := [];
    for i := 0 to |order|
      invariant ViewOf(b[..], l) == v0
      invariant |cursors| == i && forall p :: 0 <= p < i ==> cursors[p] == |Flatten(c, p)|
    {
      var x := StartAt(b, l, i);
      cursors := cursors + [x];
    }
    FlattenSize(host, c);
    KidsStart(c, v0.kids, cursors);
    for i := 1 to |order|
      invariant Cursors(c, cursors, i) && KidsTo(c, ViewOf(b[..], l).kids, i)
      invariant ViewOf(b[..], l) == v0.(kids := ViewOf(b[..], l).kids)
    {
      SlotByRemap(host, s, order, remap, c, i);
      var parent := remap[s[order[i]].parent];
      KidsNext(c, ViewOf(b[..], l).kids, cursors, i);
      CursorLength(c, cursors, i);
      PutKid(b, l, cursors[parent], i);
      cursors := cursors[parent := cursors[parent] + 1];
    }
    KidsUpTo(c, ViewOf(b[..], l).kids, |c|);
  }

  lemma CursorLength(c: Arena, cursors: seq<nat>, i: nat)
    requires Cursors(c, cursors, i)
    ensures |cursors| == |c|
  {
  }

  // -- The encoder -------------------------------------------------------------------------------

  lemma HeadSealed(l: Layout, meta: Meta, sum: U64)
    requires HeadFits(l)
    ensures SealedHead(HeadTable(l, meta, 0, NoWords(8)), sum) == HeadTable(l, meta, sum, NoWords(8))
  {
    hide NoWords;
    var x, y := SealedHead(HeadTable(l, meta, 0, NoWords(8)), sum), HeadTable(l, meta, sum, NoWords(8));
    forall k | 0 <= k < HEAD_WORDS ensures x[k] == y[k] {
    }
  }

  lemma {:induction false} SealedIsImage(host: Host, b: Text, v: Volume, meta: Meta, c: Arena, l: Layout)
    requires Storable(c) && Fits(v, c) && l == ImageLayout(v, c) && |b| == FileLength(l)
    requires ViewOf(b, l) == View(SealedHead(HeadTable(l, meta, 0, NoWords(8)), Checksum(host, b, 72)), Middle(l, v, PoolOf(c)),
                                  RecordTable(c, Offsets(NamesOf(c))), StartTable(c), Flatten(c, |c|))
    ensures IsImage(host, b, v, meta, c, NoWords(8))
  {
    hide ViewOf, InternAll, RecordTable, StartTable, Flatten, Checksum, Middle, HeadTable, SealedHead;
    HeadSealed(l, meta, Checksum(host, b, 72));
  }

  /** The names of the listed nodes, with the base offset of those still in the base. */
  method ListNames(s: Arena, baseOff: seq<Option<U32>>, order: seq<nat>) returns (names: seq<Name>, offs: seq<Option<U32>>)
    requires |baseOff| == |s| && forall k :: 0 <= k < |order| ==> order[k] < |s|
    ensures |names| == |offs| == |order|
    ensures forall k :: 0 <= k < |order| ==> names[k] == s[order[k]].name && offs[k] == baseOff[order[k]]
  {
    names, offs := [], [];
    for i := 0 to |order|
      invariant |names| == |offs| == i
      invariant forall k :: 0 <= k < i ==> names[k] == s[order[k]].name && offs[k] == baseOff[order[k]]
    {
      names, offs := names + [s[order[i]].name], offs + [baseOff[order[i]]];
    }
  }

  /** Slots still read from the base carry their base name offset; equal offsets mean equal names. */
  ghost predicate BaseOffsetsOk(s: Arena, baseOff: seq<Option<U32>>)
  {
    && |baseOff| == |s|
    && forall i, j :: 0 <= i < |s| && 0 <= j < |s| && baseOff[i].Some? && baseOff[i] == baseOff[j] ==> s[i].name == s[j].name
  }

  lemma NamesReady(host: Host, s: Arena, order: seq<nat>, remap: seq<nat>, c: Arena, names: seq<Name>)
    requires Ready(host, s, order, remap, c) && |names| == |order| && forall k :: 0 <= k < |order| ==> order[k] < |s| && names[k] == s[order[k]].name
    ensures names == NamesOf(c) && ShortNames(names)
  {
    hide Compacted, ValidTree, Ordering;
    forall k: nat | k < |c| ensures c[k].name == names[k] && |names[k]| <= MAX_U16 {
      SlotByRemap(host, s, order, remap, c, k);
    }
  }

  /** Encodes a parent-first tree in slot order; hands back any other. The only failure is a file past 4 GiB. */
  method EncodeOrdered(host: Host, s: Arena, baseOff: seq<Option<U32>>, v: Volume, meta: Meta) returns (ordered: bool, ok: bool, b: array<Byte>)
    requires ValidTree(host, s, false) && BaseOffsetsOk(s, baseOff)
    ensures ordered <==> ParentFirst(s)
    ensures ordered ==> Ordering(s, LiveIds(s, |s|)) && Storable(Compact(s, LiveIds(s, |s|)))
    ensures ordered ==> (ok <==> Fits(v, Compact(s, LiveIds(s, |s|))))
    ensures ordered && ok ==> IsImage(host, b[..], v, meta, Compact(s, LiveIds(s, |s|)), NoWords(8))
    ensures fresh(b)
  {
    hide ValidTree, ParentFirst, LiveIds, Ready, ViewOf, BlankView, Storable, Fits, IsImage, Flatten, Remaps;
    var order, remap;
    ordered, order, remap := Gather(s);
    if !ordered {
      b := new Byte[0];
      return false, false, b;
    }
    SlotOrder(host, s);
    MakeReady(host, s, order, remap);
    ghost var c := Compact(s, order);
    ok, b := EncodeAlong(host, s, baseOff, order, remap, v, meta, c);
  }

  method EncodeAlong(host: Host, s: Arena, baseOff: seq<Option<U32>>, order: seq<nat>, remap: seq<nat>, v: Volume, meta: Meta, ghost c: Arena)
    returns (ok: bool, b: array<Byte>)
    requires Ready(host, s, order, remap, c) && BaseOffsetsOk(s, baseOff)
    ensures Storable(c) && (ok <==> Fits(v, c)) && fresh(b)
    ensures ok ==> IsImage(host, b[..], v, meta, c, NoWords(8))
  {
    hide ViewOf, BlankView, Fits, IsImage, Flatten, RecordTable, StartTable, HeadTable, Middle, Counts, InternAll, ValidTree, Compact, Compacted, Ordering;
    ReadyFacts(host, s, order, remap, c);
    OrderInRange(host, s, order, remap, c);
    var names, known := ListNames(s, baseOff, order);
    NamesReady(host, s, order, remap, c, names);
    var pool, offs := InternMapped(names, known);
    var l;
    ok, b, l := Allocate(v, meta, pool, |order|);
    FitsOf(v, c);
    if !ok {
      return;
    }
    BlankStarts(l, v, meta, pool);
    FillRecords(host, b, l, s, order, remap, offs, c);
    SumStarts(host, b, l, c);
    PlaceKids(host, b, l, s, order, remap, c);
    Seal(host, b, l);
    SealedIsImage(host, b[..], v, meta, c, l);
  }

  lemma OrderInRange(host: Host, s: Arena, order: seq<nat>, remap: seq<nat>, c: Arena)
    requires Ready(host, s, order, remap, c)
    ensures forall k :: 0 <= k < |order| ==> order[k] < |s|
  {
  }

  lemma FitsOf(v: Volume, c: Arena)
    requires Storable(c)
    ensures Fits(v, c) <==> FileLength(LayoutFor(v, |PoolOf(c)|, |c|)) <= MAX_U32
    ensures ImageLayout(v, c) == LayoutFor(v, |PoolOf(c)|, |c|)
  {
  }

  lemma BlankStarts(l: Layout, v: Volume, meta: Meta, pool: Text)
    requires Packed(l) && FileLength(l) <= MAX_U32 && HEADER + |v.mount| + |v.name| <= l.po && l.po + |pool| <= l.eo
    requires l.poolLen == |pool| && l.mountLen == |v.mount| && l.nameLen == |v.name|
    ensures BlankView(l, v, meta, pool).starts == NoWords(l.n + 1) && BlankView(l, v, meta, pool).head == HeadTable(l, meta, 0, NoWords(8))
    ensures BlankView(l, v, meta, pool).middle == Middle(l, v, pool)
  {
  }
}
