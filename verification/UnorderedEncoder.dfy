/** The encoder for any tree: children grouped first, nodes listed depth first unless slot order will do. */
module UnorderedEncoder {
  import opened Words
  import opened Forest
  import opened Slots
  import opened ChildRows
  import opened Validation
  import opened Grafting
  import opened BaseFormat
  import opened Interning
  import opened BaseImage
  import opened BaseRoundTrip
  import opened Compaction
  import opened BaseBuffer
  import opened OrderedEncoder
  import opened DepthFirst
  import Decoding

  /** Groups live nodes under their parents, and notices parents that do not come first. */
  method GroupChildren(host: Host, s: Arena) returns (children: Rows, ordered: bool)
    requires ValidTree(host, s, false)
    ensures children == CanonRows(s) && (ordered <==> ParentFirst(s))
  {
    hide ValidTree, ChildIds, HeapEdge;
    children, ordered := seq(|s|, _ => []), true;
    NothingGrouped(s, children);
    for i := 0 to |s|
      invariant |children| == |s| && forall p :: 0 <= p < |s| ==> children[p] == ChildIds(s, p, i)
      invariant ordered <==> forall k :: 0 < k < i && s[k].used ==> s[k].parent < k
    {
      GroupNext(host, s, i);
      if i > 0 && s[i].used {
        children := children[s[i].parent := children[s[i].parent] + [i]];
        if s[i].parent >= i {
          ordered := false;
        }
      }
    }
  }

  lemma {:induction false} NothingGrouped(s: Arena, children: Rows)
    requires |children| == |s| && forall p :: 0 <= p < |s| ==> children[p] == []
    ensures forall p :: 0 <= p < |s| ==> children[p] == ChildIds(s, p, 0)
  {
  }

  lemma {:induction false} GroupNext(host: Host, s: Arena, i: nat)
    requires ValidTree(host, s, false) && i < |s|
    ensures i > 0 && s[i].used ==> s[i].parent < |s|
    ensures forall p: nat :: p < |s| ==> ChildIds(s, p, i + 1) == if i > 0 && s[i].used && s[i].parent == p then ChildIds(s, p, i) + [i] else ChildIds(s, p, i)
  {
    hide Acyclic, SafeName;
    assert LinkOk(host, s, i, false);
    forall p: nat | p < |s| ensures ChildIds(s, p, i + 1) == if i > 0 && s[i].used && s[i].parent == p then ChildIds(s, p, i) + [i] else ChildIds(s, p, i) {
      ChildStep(s, i, p);
    }
  }

  // -- Rows through the renaming ------------------------------------------------------------

  function Through(remap: seq<nat>, row: seq<nat>): (r: seq<nat>)
    requires forall k :: 0 <= k < |row| ==> row[k] < |remap|
    ensures |r| == |row| && forall k :: 0 <= k < |r| ==> r[k] == remap[row[k]]
  {
    seq(|row|, (k: nat) requires k < |row| => remap[row[k]])
  }

  /** A node's children, renamed, are the compact node's children in slot order. */
  lemma {:induction false} RowThrough(host: Host, s: Arena, order: seq<nat>, remap: seq<nat>, c: Arena, i: nat)
    requires Ready(host, s, order, remap, c) && SiblingOrder(s, order) && i < |c| && order[i] < |s|
    requires forall k :: 0 <= k < |ChildIds(s, order[i], |s|)| ==> ChildIds(s, order[i], |s|)[k] < |remap|
    ensures Through(remap, ChildIds(s, order[i], |s|)) == ChildIds(c, i, |c|)
  {
    hide Ready, SiblingOrder, ChildIds;
    ReadyLengths(host, s, order, remap, c);
    var row := ChildIds(s, order[i], |s|);
    var image := Through(remap, row);
    forall a | 0 <= a < |row| ensures 0 <= remap[row[a]] < |c| && order[remap[row[a]]] == row[a] {
      ListedByRemap(host, s, order, remap, c, row[a]);
    }
    forall k: nat ensures k in image <==> k in ChildIds(c, i, |c|) {
      ImageMember(host, s, order, remap, c, i, k);
    }
    forall a, b | 0 <= a < b < |image| ensures image[a] < image[b] {
      SiblingsKeepOrder(host, s, order, remap, c, i, a, b);
    }
    AscendingUnique(image, ChildIds(c, i, |c|));
  }

  /** A linked node is listed, where remap says. */
  lemma ListedByRemap(host: Host, s: Arena, order: seq<nat>, remap: seq<nat>, c: Arena, x: nat)
    requires Ready(host, s, order, remap, c) && x < |s| && HeapEdge(s, x).Some?
    ensures x < |remap| && remap[x] < |c| && order[remap[x]] == x
  {
    hide ValidTree, Compact, Compacted;
    assert Valid(s, x);
    assert x in order;
    var k :| 0 <= k < |order| && order[k] == x;
  }

  lemma {:induction false} ImageMember(host: Host, s: Arena, order: seq<nat>, remap: seq<nat>, c: Arena, i: nat, k: nat)
    requires Ready(host, s, order, remap, c) && i < |c| && order[i] < |s|
    requires forall a :: 0 <= a < |ChildIds(s, order[i], |s|)| ==> ChildIds(s, order[i], |s|)[a] < |remap|
    ensures k in Through(remap, ChildIds(s, order[i], |s|)) <==> k in ChildIds(c, i, |c|)
  {
    hide ValidTree, Compact, Compacted, Ordering, ChildIds;
    var row := ChildIds(s, order[i], |s|);
    if k in Through(remap, row) {
      var a :| 0 <= a < |row| && remap[row[a]] == k;
      assert row[a] in row;
      ListedByRemap(host, s, order, remap, c, row[a]);
      CompactEdges(host, s, order, k, i);
    }
    if k in ChildIds(c, i, |c|) {
      CompactEdges(host, s, order, k, i);
      assert ChildOf(Edges(s), order[k], order[i]);
      assert order[k] in row;
      var a :| 0 <= a < |row| && row[a] == order[k];
      assert Through(remap, row)[a] == k;
    }
  }

  lemma {:induction false} SiblingsKeepOrder(host: Host, s: Arena, order: seq<nat>, remap: seq<nat>, c: Arena, i: nat, a: nat, b: nat)
    requires Ready(host, s, order, remap, c) && SiblingOrder(s, order) && i < |c| && order[i] < |s|
    requires a < b < |ChildIds(s, order[i], |s|)|
    ensures ChildIds(s, order[i], |s|)[a] < |remap| && ChildIds(s, order[i], |s|)[b] < |remap|
    ensures remap[ChildIds(s, order[i], |s|)[a]] < remap[ChildIds(s, order[i], |s|)[b]]
  {
    hide Ready, ChildIds;
    ReadyLengths(host, s, order, remap, c);
    var row := ChildIds(s, order[i], |s|);
    assert row[a] in row && row[b] in row && row[a] < row[b];
    ListedByRemap(host, s, order, remap, c, row[a]);
    ListedByRemap(host, s, order, remap, c, row[b]);
    var x, y := remap[row[a]], remap[row[b]];
    SiblingPair(s, order, y, x);
  }

  lemma SiblingPair(s: Arena, order: seq<nat>, a: nat, b: nat)
    requires SiblingOrder(s, order) && a < |order| && b < |order|
    ensures Siblings(s, order[a], order[b]) && a < b ==> order[a] < order[b]
  {
  }

  lemma ReadyLengths(host: Host, s: Arena, order: seq<nat>, remap: seq<nat>, c: Arena)
    requires Ready(host, s, order, remap, c)
    ensures |c| == |order| && |remap| == |s|
  {
  }

  /** In slot order siblings are in slot order. */
  lemma {:induction false} SlotOrderSiblings(s: Arena)
    ensures SiblingOrder(s, LiveIds(s, |s|))
  {
    hide Siblings;
    forall a, b | 0 <= a < b < |LiveIds(s, |s|)| ensures LiveIds(s, |s|)[a] < LiveIds(s, |s|)[b] {
      LiveIdsAscend(s, |s|, a, b);
    }
  }

  // -- Emission -------------------------------------------------------------------------------

  /** Records, starts and kids of the first i nodes are in place. */
  ghost predicate Emitted(w: View, v0: View, c: Arena, offs: seq<nat>, i: nat)
  {
    && RecordsTo(w.records, c, offs, i) && |w.starts| == |c| + 1 && |w.kids| == |Flatten(c, |c|)|
    && w == v0.(records := w.records, starts := w.starts, kids := w.kids)
    && (forall q :: 0 <= q < i ==> w.starts[q] == |Flatten(c, q)|)
    && |Flatten(c, i)| <= |w.kids| && w.kids[..|Flatten(c, i)|] == Flatten(c, i)
  }

  /** Writes node i: its record, where its row starts, and the row. */
  method EmitNode(host: Host, b: array<Byte>, l: Layout, e: Slot, offs: seq<nat>, remap: seq<nat>, children: seq<nat>, cursor: nat, i: nat, ghost c: Arena, ghost v0: View)
    returns (cursor': nat)
    requires Compacted(host, c) && |c| <= PARENT_LIMIT && Packed(l) && l.n == |c| == |offs| && b.Length == FileLength(l) && i < |c| && e == c[i] && e.parent < PARENT_LIMIT
    requires forall k :: 0 <= k < |children| ==> children[k] < |remap|
    requires Through(remap, children) == ChildIds(c, i, |c|)
    requires Emitted(ViewOf(b[..], l), v0, c, offs, i) && cursor == |Flatten(c, i)|
    modifies b
    ensures Emitted(ViewOf(b[..], l), v0, c, offs, i + 1) && cursor' == |Flatten(c, i + 1)|
  {
    hide ViewOf, RecordTable, WithRecord, RecordsTo, Emitted, Flatten, Compacted, ChildIds, Through;
    ghost var w := ViewOf(b[..], l);
    FlattenSize(host, c);
    FlattenRow(c, i);
    EmittedRecords(w, v0, c, offs, i);
    WriteRecord(b, l, i, e, offs[i]);
    PutStart(b, l, i, cursor);
    ghost var w1 := ViewOf(b[..], l);
    cursor' := cursor;
    for k := 0 to |children|
      invariant cursor' == |Flatten(c, i)| + k && |w1.kids| == l.n - 1
      invariant ViewOf(b[..], l) == w1.(kids := Splice2(w1.kids, |Flatten(c, i)|, ChildIds(c, i, |c|)[..k]))
    {
      RowEntry(host, c, remap, children, i, k);
      Splice2Next(w1.kids, |Flatten(c, i)|, ChildIds(c, i, |c|), k);
      PutKid(b, l, cursor', remap[children[k]]);
      cursor' := cursor' + 1;
    }
    EmittedNext(w, v0, c, offs, i);
  }

  /** s with w written over it at off. */
  ghost function Splice2(s: seq<nat>, off: nat, w: seq<nat>): (t: seq<nat>)
    requires off + |w| <= |s|
    ensures |t| == |s|
  {
    s[..off] + w + s[off + |w|..]
  }

  lemma Splice2Next(s: seq<nat>, off: nat, row: seq<nat>, k: nat)
    requires k < |row| && off + |row| <= |s|
    ensures Splice2(s, off, row[..k + 1]) == Splice2(s, off, row[..k])[off + k := row[k]]
  {
  }

  lemma {:induction false} RowEntry(host: Host, c: Arena, remap: seq<nat>, children: seq<nat>, i: nat, k: nat)
    requires Compacted(host, c) && |c| <= PARENT_LIMIT && i < |c| && k < |children| && forall k :: 0 <= k < |children| ==> children[k] < |remap|
    requires Through(remap, children) == ChildIds(c, i, |c|)
    ensures |children| == |ChildIds(c, i, |c|)| && remap[children[k]] == ChildIds(c, i, |c|)[k] < PARENT_LIMIT
    ensures |Flatten(c, i)| + k < |c| - 1
  {
    hide Compacted, ChildIds, Flatten;
    FlattenRow(c, i);
    FlattenSize(host, c);
  }

  lemma {:induction false} EmittedRecords(w: View, v0: View, c: Arena, offs: seq<nat>, i: nat)
    requires Emitted(w, v0, c, offs, i)
    ensures RecordsTo(w.records, c, offs, i) && |w.kids| == |Flatten(c, |c|)| && |w.starts| == |c| + 1
  {
  }

  lemma {:induction false} EmittedNext(w: View, v0: View, c: Arena, offs: seq<nat>, i: nat)
    requires Emitted(w, v0, c, offs, i) && i < |c| && c[i].parent < PARENT_LIMIT && |offs| == |c|
    requires |Flatten(c, i)| + |ChildIds(c, i, |c|)| <= |w.kids| && RECORD_WORDS * i + RECORD_WORDS <= |w.records|
    ensures Emitted(w.(records := WithRecord(w.records, i, c[i], offs[i]), starts := w.starts[i := |Flatten(c, i)|],
                       kids := Splice2(w.kids, |Flatten(c, i)|, ChildIds(c, i, |c|)[..|ChildIds(c, i, |c|)|])), v0, c, offs, i + 1)
  {
    hide WithRecord, RecordTable, ChildIds;
    RecordsNext(w.records, c, offs, i);
    var row := ChildIds(c, i, |c|);
    assert row[..|row|] == row;
    assert Flatten(c, i + 1) == Flatten(c, i) + row;
    var kids' := Splice2(w.kids, |Flatten(c, i)|, row);
    assert kids'[..|Flatten(c, i)| + |row|] == w.kids[..|Flatten(c, i)|] + row;
  }

  lemma {:induction false} EmittedAll(w: View, v0: View, c: Arena, offs: seq<nat>)
    requires Emitted(w, v0, c, offs, |c|)
    ensures w.(starts := w.starts[|c| := |Flatten(c, |c|)|]) == v0.(records := RecordTable(c, offs), starts := StartTable(c), kids := Flatten(c, |c|))
  {
    RecordsDone(w.records, c, offs);
    assert w.kids[..|w.kids|] == w.kids;
    assert w.starts[|c| := |Flatten(c, |c|)|] == StartTable(c);
  }

  lemma {:induction false} EmittedNothing(w: View, c: Arena, offs: seq<nat>)
    requires Storable(c) && |offs| == |c| && |w.records| == RECORD_WORDS * |c| && |w.starts| == |c| + 1 && |w.kids| == |Flatten(c, |c|)|
    ensures Emitted(w, w, c, offs, 0) && |Flatten(c, 0)| == 0
  {
  }

  // -- The encoder ----------------------------------------------------------------------------------

  /** Encodes any valid tree along some ordering, slot order when that is one. The only failure is a file past 4 GiB. */
  method EncodeUnordered(host: Host, s: Arena, v: Volume, meta: Meta) returns (ok: bool, b: array<Byte>, ghost order: seq<nat>)
    requires ValidTree(host, s, false)
    ensures Ordering(s, order) && Storable(Compact(s, order)) && (ParentFirst(s) ==> order == LiveIds(s, |s|))
    ensures (ok <==> Fits(v, Compact(s, order))) && fresh(b)
    ensures ok ==> IsImage(host, b[..], v, meta, Compact(s, order), NoWords(8))
  {
    hide ValidTree, ParentFirst, LiveIds, Ready, Storable, Fits, IsImage, SiblingOrder, ChildIds;
    var children, ordered := GroupChildren(host, s);
    var list, remap := ListDepthFirst(host, s, children);
    if ordered {
      SlotOrder(host, s);
      SlotOrderSiblings(s);
      SortedIsSlotOrder(host, s, list);
      list := Decoding.SortIds(list);
      remap := Invert(s, list, remap);
    }
    order := list;
    MakeReady(host, s, list, remap);
    ok, b := EmitAlong(host, s, children, list, remap, v, meta, Compact(s, list));
  }

  lemma {:induction false} SortedIsSlotOrder(host: Host, s: Arena, list: seq<nat>)
    requires Ordering(s, list) && Ordering(s, LiveIds(s, |s|))
    ensures Decoding.SortIds(list) == LiveIds(s, |s|)
  {
    hide Compact, Decoding.SortIds, Position;
    OrderingFacts(s, list);
    OrderingFacts(s, LiveIds(s, |s|));
    forall a, b | 0 <= a < b < |LiveIds(s, |s|)| ensures LiveIds(s, |s|)[a] < LiveIds(s, |s|)[b] { LiveIdsAscend(s, |s|, a, b); }
    AscendingUnique(Decoding.SortIds(list), LiveIds(s, |s|));
  }

  /** Renumbers the listed nodes by their place. */
  method Invert(s: Arena, list: seq<nat>, remap0: seq<nat>) returns (remap: seq<nat>)
    requires Ordering(s, list) && |remap0| == |s|
    ensures Remaps(list, remap, |s|)
  {
    hide Ordering;
    OrderingFacts(s, list);
    remap := remap0;
    for i := 0 to |list|
      invariant |remap| == |s| && forall k :: 0 <= k < i ==> remap[list[k]] == k
    {
      remap := remap[list[i] := i];
    }
  }

  method EmitAlong(host: Host, s: Arena, children: Rows, order: seq<nat>, remap: seq<nat>, v: Volume, meta: Meta, ghost c: Arena) returns (ok: bool, b: array<Byte>)
    requires Ready(host, s, order, remap, c) && SiblingOrder(s, order) && children == CanonRows(s)
    ensures Storable(c) && (ok <==> Fits(v, c)) && fresh(b)
    ensures ok ==> IsImage(host, b[..], v, meta, c, NoWords(8))
  {
    hide Ready, ViewOf, BlankView, Fits, IsImage, Flatten, RecordTable, StartTable, HeadTable, Middle, InternAll, Compact, Compacted, SiblingOrder, Emitted, ChildIds, Storable;
    ReadyFacts(host, s, order, remap, c);
    OrderInRange(host, s, order, remap, c);
    var names, _ := ListNames(s, seq(|s|, _ => None), order);
    NamesReady(host, s, order, remap, c, names);
    var pool, offs := InternEach(names);
    var l;
    ok, b, l := Allocate(v, meta, pool, |order|);
    FitsOf(v, c);
    if !ok {
      return;
    }
    BlankStarts(l, v, meta, pool);
    var cursor := EmitAll(host, b, l, s, children, order, remap, offs, c);
    Seal(host, b, l);
    SealedIsImage(host, b[..], v, meta, c, l);
  }

  method EmitAll(host: Host, b: array<Byte>, l: Layout, s: Arena, children: Rows, order: seq<nat>, remap: seq<nat>, offs: seq<nat>, ghost c: Arena) returns (cursor: nat)
    requires Ready(host, s, order, remap, c) && SiblingOrder(s, order) && children == CanonRows(s)
    requires Packed(l) && l.n == |c| == |offs| && b.Length == FileLength(l)
    modifies b
    ensures ViewOf(b[..], l) == old(ViewOf(b[..], l)).(records := RecordTable(c, offs), starts := StartTable(c), kids := Flatten(c, |c|))
  {
    hide Ready, ViewOf, Flatten, RecordTable, StartTable, Compacted, SiblingOrder, Emitted, ChildIds, Storable;
    ReadyFacts(host, s, order, remap, c);
    ghost var v0 := ViewOf(b[..], l);
    FlattenSize(host, c);
    EmittedNothing(v0, c, offs);
    cursor := 0;
    for i := 0 to |order|
      invariant Emitted(ViewOf(b[..], l), v0, c, offs, i) && cursor == |Flatten(c, i)|
    {
      SlotByRemap(host, s, order, remap, c, i);
      ChildrenInRange(s, order[i], |remap|);
      RowThrough(host, s, order, remap, c, i);
      cursor := EmitNode(host, b, l, s[order[i]].(parent := remap[s[order[i]].parent]), offs, remap, children[order[i]], cursor, i, c, v0);
    }
    EmittedAll(ViewOf(b[..], l), v0, c, offs);
    PutStart(b, l, |order|, cursor);
  }

  lemma {:induction false} ChildrenInRange(s: Arena, p: nat, n: nat)
    requires p < |s| == n
    ensures forall k :: 0 <= k < |ChildIds(s, p, |s|)| ==> ChildIds(s, p, |s|)[k] < n
  {
  }
}
