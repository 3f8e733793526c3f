/** Streaming a spilled scan straight into a base file, names last. */
module SpillIndex {
  import opened Words
  import opened Sums
  import opened Forest
  import opened Slots
  import opened Ancestors
  import opened Worklist
  import opened Bytes
  import opened ChildRows
  import opened Validation
  import opened BaseFormat
  import opened Interning
  import opened BaseImage
  import opened BaseRoundTrip
  import opened BaseBuffer
  import opened OrderedEncoder
  import opened SpillTrees

  // -- Names ------------------------------------------------------------------------------

  /** Every remembered offset holds some name. */
  ghost predicate TableOk(pool: Text, names: map<U64, nat>)
  {
    forall h :: h in names ==> NameIn(pool, names[h]).Some?
  }

  /** A name found under its hash is stored no second time; any other is appended and found from then on. */
  ghost predicate Shares(hash: Name -> U64, pool0: Text, names0: map<U64, nat>, name: Name, pool: Text, names: map<U64, nat>)
    requires |name| <= MAX_U16
  {
    if hash(name) in names0 && NameIn(pool0, names0[hash(name)]) == Some(name) then pool == pool0 && names == names0
    else pool == pool0 + LE16(|name|) + name && names == names0[hash(name) := |pool0|]
  }

  /** Looks a name up by hash and compares bytes; appends it when that is not it. A collision costs a second copy, never a wrong name. */
  method SpillIntern(hash: Name -> U64, pool0: Text, names0: map<U64, nat>, name: Name) returns (pool: Text, names: map<U64, nat>, off: nat)
    requires TableOk(pool0, names0) && |name| <= MAX_U16
    ensures TableOk(pool, names) && NameIn(pool, off) == Some(name) && pool0 <= pool && |pool| <= |pool0| + 2 + |name| && off <= |pool|
    ensures Shares(hash, pool0, names0, name, pool, names)
  {
    hide LE16, U16At;
    pool, names := pool0, names0;
    var h := hash(name);
    if h in names {
      off := names[h];
      if U16At(pool, off) == |name| && pool[off + 2..off + 2 + |name|] == name {
        return;
      }
    }
    off := |pool|;
    TableGrows(pool, names, h, name);
    pool := pool + LE16(|name|) + name;
    names := names[h := off];
  }

  lemma TableGrows(pool: Text, names: map<U64, nat>, h: U64, name: Name)
    requires TableOk(pool, names) && |name| <= MAX_U16
    ensures TableOk(pool + LE16(|name|) + name, names[h := |pool|]) && NameIn(pool + LE16(|name|) + name, |pool|) == Some(name)
    ensures |pool + LE16(|name|) + name| == |pool| + 2 + |name| && pool <= pool + LE16(|name|) + name
  {
    hide LE16, NameIn;
    var more := LE16(|name|) + name;
    NameAdded(pool, name);
    assert pool + LE16(|name|) + name == pool + more;
    forall k | k in names ensures NameIn(pool + more, names[k]).Some? { NameKept(pool, more, names[k]); }
  }

  // -- The tree and its shape -----------------------------------------------------------------

  /** Files count themselves in the written form. */
  function Filled(t: Arena): (r: Arena)
    ensures |r| == |t| && forall i :: 0 <= i < |t| ==> r[i] == if t[i].isDir then t[i] else t[i].(files := 1)
  {
    seq(|t|, (i: nat) requires i < |t| => if t[i].isDir then t[i] else t[i].(files := 1))
  }

  /** The records as first written: directories still carry their own sizes. */
  function RawSlots(rootName: Name, records: seq<Record>): (r: Arena)
    ensures |r| == |records| + 1
    ensures forall i :: 0 <= i < |r| ==> r[i] == RawSlot(rootName, records, i)
  {
    seq(|records| + 1, (i: nat) requires i <= |records| => RawSlot(rootName, records, i))
  }

  function RawSlot(rootName: Name, records: seq<Record>, i: nat): Slot
    requires i <= |records|
  {
    if i == 0 then Slot(0, rootName, true, 0, true, 0, 0)
    else var r := records[i - 1]; Slot(r.parent, r.name, r.isDir, r.size, true, r.mtime, if r.isDir then 0 else 1)
  }

  /** The parent graph alone, every node a directory. */
  function Frame(records: seq<Record>): (c: Arena)
    ensures |c| == |records| + 1 && c[0] == Slot(0, [], true, 0, true, 0, 0)
    ensures forall k :: 0 <= k < |records| ==> c[k + 1] == Slot(records[k].parent, [], true, 0, true, 0, 0)
  {
    [Slot(0, [], true, 0, true, 0, 0)] + seq(|records|, (k: nat) requires k < |records| => Slot(records[k].parent, [], true, 0, true, 0, 0))
  }

  predicate Backward(records: seq<Record>)
  {
    forall k :: 0 <= k < |records| ==> records[k].parent <= k
  }

  lemma FrameEdge(records: seq<Record>, i: nat)
    requires 0 < i <= |records| && records[i - 1].parent < i
    ensures HeapEdge(Frame(records), i) == Some(Frame(records)[i].parent as nat) && Frame(records)[i].parent == records[i - 1].parent
  {
    var c := Frame(records);
    var p := records[i - 1].parent;
    assert c[i] == Slot(p, [], true, 0, true, 0, 0);
    if p > 0 { assert c[p].isDir && c[p].used; }
  }

  // -- Pouring up ---------------------------------------------------------------------------------

  function Poured(v: Arena, i: nat): (r: Arena)
    requires i < |v| && v[i].parent < |v|
    ensures |r| == |v|
  {
    var p := v[i].parent;
    v[p := v[p].(size := (v[p].size + v[i].size) % TWO_TO_THE_64, files := (v[p].files + v[i].files) % TWO_TO_THE_32)]
  }

  predicate InsideParents(v: Arena)
  {
    forall i :: 0 <= i < |v| ==> v[i].parent < |v|
  }

  lemma PouredInside(v: Arena, i: nat)
    requires InsideParents(v) && i < |v|
    ensures InsideParents(Poured(v, i))
  {
  }

  /** Every node poured into its parent, from node i down to node 1. */
  function PouredFrom(v: Arena, i: nat): (r: Arena)
    requires InsideParents(v) && (i < |v| || i == 0)
    ensures |r| == |v|
    decreases i
  {
    if i == 0 then v else
      PouredInside(v, i);
      PouredFrom(Poured(v, i), i - 1)
  }

  /** On a sound spill pouring up is the roll-up. */
  lemma {:induction false} PouringRollsUp(u: Arena, v: Arena, i: nat)
    requires LiveParentFirst(u) && RolledDown(u, v, i) && BytesBelow(u, 0) <= MAX_U64 && |u| <= PARENT_LIMIT && InsideParents(Filled(v)) && i < |u|
    ensures PouredFrom(Filled(v), i) == Filled(RollUp(u))
    decreases i
  {
    hide LiveParentFirst, RolledDown, BytesBelow, Filled, RollUp, Poured, PassedOn;
    FirstNode(u);
    RolledLength(u, v, i);
    if i == 0 {
      RollEnds(u, v);
    } else {
      PassesOn(u, v, i);
      FilledSize(v);
      PouredInside(Filled(v), i);
      PourIsPass(u, v, i);
      PouringRollsUp(u, PassedOn(v, i), i - 1);
    }
  }

  lemma FilledSize(v: Arena)
    ensures |Filled(v)| == |v| && forall i :: 0 <= i < |v| ==> Filled(v)[i].parent == v[i].parent
  {
  }

  lemma PourIsPass(u: Arena, v: Arena, i: nat)
    requires LiveParentFirst(u) && 0 < i < |u| <= PARENT_LIMIT && RolledDown(u, v, i) && BytesBelow(u, 0) <= MAX_U64
    ensures v[i].parent < i < |v| && Poured(Filled(v), i) == Filled(PassedOn(v, i))
  {
    hide BytesBelow, Received, OnCycle, Reaches, Edges, Above;
    PassesOn(u, v, i);
    assert DirHolds(u, v, i, i);
    var p := u[i].parent;
    assert DirHolds(u, v, p, i);
    SmallCount(u, v, p, i);
    if u[i].isDir { SmallCount(u, v, i, i); }
  }

  /** Partial counts never exceed the number of nodes. */
  lemma SmallCount(u: Arena, v: Arena, d: nat, k: nat)
    requires LiveParentFirst(u) && d < |u| <= PARENT_LIMIT && RolledDown(u, v, k) && u[d].isDir
    ensures |v| == |u| && v[d].files <= PARENT_LIMIT
  {
    hide Received, OnCycle, Reaches, Edges, Above;
    assert DirHolds(u, v, d, k);
    AtMostTotal(u, CountWeight(u), d, k);
    FilesBounded(u, d);
  }

  // -- Layout: labels, records, tables, then names ----------------------------------------------

  function SpillLayout(v: Volume, n: nat, poolLen: nat): (l: Layout)
    requires n > 0
    ensures Packed(l) && l.n == n && l.po == FileLength(l) && l.eo % 8 == 0 && HEADER + |v.mount| + |v.name| <= l.eo
  {
    var eo := Align8(HEADER + |v.mount| + |v.name|);
    Layout(n, poolLen, n - 1, |v.mount|, |v.name|, eo + n * 24 + (n + 1) * 4 + (n - 1) * 4, eo, eo + n * 24, eo + n * 24 + (n + 1) * 4)
  }

  function Labels(l: Layout, v: Volume): (r: Text)
    requires HEADER + |v.mount| + |v.name| <= l.eo
    ensures |r| == l.eo - HEADER
  {
    v.mount + v.name + Zeros(l.eo - (HEADER + |v.mount| + |v.name|))
  }

  // -- First pass -------------------------------------------------------------------------------------

  ghost function Entry(counts: seq<nat>): nat -> nat
  {
    (i: nat) => if i < |counts| then counts[i] else 0
  }

  /** Counts children by parent; a record that names a later node is malformed. */
  method CountSpillChildren(records: seq<Record>, n: nat) returns (ok: bool, counts: seq<nat>)
    requires n == |records| + 1
    ensures ok <==> forall k :: 0 <= k < |records| ==> records[k].parent < n
    ensures ok ==> |counts| == n && Sum(n, Entry(counts)) == |records|
    ensures ok && Backward(records) ==> forall p :: 0 <= p < n ==> counts[p] == |ChildIds(Frame(records), p, n)|
  {
    hide ChildIds, Frame;
    counts := seq(n, i => 0);
    ghost var c := Frame(records);
    forall p: nat ensures ChildIds(c, p, 1) == [] { RootHasNoParent(c, p); }
    SumZero(n, Entry(counts));
    for k := 0 to |records|
      invariant Sum(n, Entry(counts)) == k
      invariant |counts| == n && forall j :: 0 <= j < k ==> records[j].parent < n
      invariant Backward(records) ==> forall p :: 0 <= p < n ==> counts[p] == |ChildIds(c, p, k + 1)|
    {
      var p: nat := records[k].parent;
      if p >= n {
        return false, counts;
      }
      if Backward(records) {
        FrameEdge(records, k + 1);
        var m := k + 1;
        var m' := m + 1;
        forall q: nat | q < n ensures |ChildIds(c, q, m')| == |ChildIds(c, q, m)| + (if q == p then 1 else 0) { ChildStep(c, m, q); }
      }
      SumPoint(n, Entry(counts), Entry(counts[p := counts[p] + 1]), p, 1);
      counts := counts[p := counts[p] + 1];
    }
    ok := true;
  }

  lemma {:induction false} RootHasNoParent(c: Arena, p: nat)
    requires 0 < |c|
    ensures ChildIds(c, p, 1) == []
  {
    assert ChildIds(c, p, 0) == [] && HeapEdge(c, 0).None?;
  }

  /** Where each parent's row starts. */
  method RowStarts(counts: seq<nat>, ghost c: Arena) returns (start: seq<nat>, total: nat)
    requires |counts| == |c|
    ensures |start| == |c| && total == Sum(|c|, Entry(counts)) && forall p :: 0 <= p < |c| ==> start[p] <= total
    ensures (forall p :: 0 <= p < |c| ==> counts[p] == |ChildIds(c, p, |c|)|) ==> forall p :: 0 <= p < |c| ==> start[p] == |Flatten(c, p)|
  {
    hide ChildIds;
    start, total := [], 0;
    for i := 0 to |counts|
      invariant |start| == i && total == Sum(i, Entry(counts)) && forall p :: 0 <= p < i ==> start[p] <= total
      invariant (forall p :: 0 <= p < |c| ==> counts[p] == |ChildIds(c, p, |c|)|) ==> total == |Flatten(c, i)| && forall p :: 0 <= p < i ==> start[p] == |Flatten(c, p)|
    {
      start := start + [total];
      total := total + counts[i];
    }
  }

  /** One entry of the table for every record. */
  lemma {:induction false} FrameFlat(records: seq<Record>, p: nat)
    requires Backward(records) && p <= |records| + 1
    ensures Distinct(Flatten(Frame(records), p))
    ensures forall k :: k in Flatten(Frame(records), p) <==> 0 < k <= |records| && Frame(records)[k].parent < p
  {
    hide ChildIds, Frame;
    var c := Frame(records);
    if p > 0 {
      FrameFlat(records, p - 1);
      FrameRow(records, p - 1);
      DistinctConcat(Flatten(c, p - 1), ChildIds(c, p - 1, |c|));
    }
  }

  lemma {:induction false} FrameRow(records: seq<Record>, p: nat)
    requires Backward(records) && p <= |records|
    ensures forall k: nat :: k in ChildIds(Frame(records), p, |records| + 1) <==> 0 < k <= |records| && Frame(records)[k].parent == p
    ensures Distinct(ChildIds(Frame(records), p, |records| + 1))
  {
    var c, n := Frame(records), |records| + 1;
    forall k: nat | k < n ensures k in ChildIds(c, p, n) <==> 0 < k && c[k].parent == p {
      if k > 0 { FrameEdge(records, k); }
    }
  }

  lemma {:induction false} FrameFlatSize(records: seq<Record>)
    requires Backward(records)
    ensures |Flatten(Frame(records), |records| + 1)| == |records|
  {
    hide Frame, Flatten;
    var flat := Flatten(Frame(records), |records| + 1);
    FrameFlat(records, |records| + 1);
    forall k: nat | 0 < k <= |records| ensures Frame(records)[k].parent < |records| + 1 { FrameEdge(records, k); }
    NonRootCount(flat, |records| + 1);
  }

  // -- Second pass: records, names and kids --------------------------------------------------------------

  /** The first records are written, their names found in the pool. */
  ghost predicate Written(w: seq<U32>, pool: Text, c: Arena, offs: seq<nat>)
  {
    && |offs| <= |c| && Narrow(c) && |w| == RECORD_WORDS * |c|
    && (forall i :: 0 <= i < |offs| ==> NameIn(pool, offs[i]) == Some(c[i].name))
    && forall m :: 0 <= m < RECORD_WORDS * |offs| ==> w[m] == RecordWord(c[m / RECORD_WORDS], offs[m / RECORD_WORDS], m % RECORD_WORDS)
  }

  lemma WrittenNext(w: seq<U32>, pool: Text, pool': Text, c: Arena, offs: seq<nat>, off: nat)
    requires Written(w, pool, c, offs) && |offs| < |c| && pool <= pool' && NameIn(pool', off) == Some(c[|offs|].name)
    ensures Written(WithRecord(w, |offs|, c[|offs|], off), pool', c, offs + [off])
  {
    hide RecordWord, WithRecord, NameIn;
    var i, offs' := |offs|, offs + [off];
    var w' := WithRecord(w, i, c[i], off);
    forall k | 0 <= k <= i ensures NameIn(pool', offs'[k]) == Some(c[k].name) {
      if k < i {
        assert pool' == pool + pool'[|pool|..];
        NameKept(pool, pool'[|pool|..], offs[k]);
      }
    }
    forall m | 0 <= m < RECORD_WORDS * (i + 1) ensures w'[m] == RecordWord(c[m / RECORD_WORDS], offs'[m / RECORD_WORDS], m % RECORD_WORDS) {
      if m >= RECORD_WORDS * i { assert m / RECORD_WORDS == i && m % RECORD_WORDS == m - RECORD_WORDS * i; }
    }
  }

  lemma WrittenAll(w: seq<U32>, pool: Text, c: Arena, offs: seq<nat>)
    requires Written(w, pool, c, offs) && |offs| == |c|
    ensures w == RecordTable(c, offs)
  {
    hide RecordWord;
  }

  /** The state of the second pass after i nodes. */
  ghost predicate Filling(w: View, v0: View, rootName: Name, records: seq<Record>, pool: Text, names: map<U64, nat>, offs: seq<nat>, i: nat)
  {
    var c, n := Frame(records), |records| + 1;
    && Backward(records) && 0 < i <= n && |offs| == i && |w.starts| == |v0.starts| == n + 1 && |w.kids| == |records| && TableOk(pool, names)
    && w == v0.(records := w.records, starts := w.starts, kids := w.kids)
    && Written(w.records, pool, RawSlots(rootName, records), offs)
    && Cursors(c, w.starts[..n], i) && KidsTo(c, w.kids, i) && w.starts[n] == v0.starts[n]
  }

  predicate ShortRecords(rootName: Name, records: seq<Record>)
  {
    |rootName| <= MAX_U16 && |records| < PARENT_LIMIT && forall k :: 0 <= k < |records| ==> |records[k].name| <= MAX_U16
  }

  lemma FillingNext(w: View, v0: View, rootName: Name, records: seq<Record>, pool: Text, names: map<U64, nat>, pool': Text, names': map<U64, nat>, offs: seq<nat>, off: nat, i: nat)
    requires Filling(w, v0, rootName, records, pool, names, offs, i) && i <= |records| && pool <= pool' && TableOk(pool', names')
    requires NameIn(pool', off) == Some(records[i - 1].name)
    ensures var p: nat := records[i - 1].parent; var e := RawSlot(rootName, records, i);
            && p < |w.starts| && w.starts[p] < |w.kids| && RECORD_WORDS * i + RECORD_WORDS <= |w.records| && e.parent < PARENT_LIMIT
            && Filling(w.(records := WithRecord(w.records, i, e, off), kids := w.kids[w.starts[p] := i], starts := w.starts[p := w.starts[p] + 1]),
                       v0, rootName, records, pool', names', offs + [off], i + 1)
  {
    hide WithRecord, Frame, ChildIds, Flatten, Cursors, KidsTo, Written, NameIn, TableOk;
    var c, n := Frame(records), |records| + 1;
    var p: nat := records[i - 1].parent;
    FrameEdge(records, i);
    KidsNext(c, w.kids, w.starts[..n], i);
    assert w.starts[p := w.starts[p] + 1][..n] == w.starts[..n][p := w.starts[..n][p] + 1];
    WrittenFacts(w.records, pool, RawSlots(rootName, records), offs);
    WrittenNext(w.records, pool, pool', RawSlots(rootName, records), offs, off);
  }

  lemma WrittenFacts(w: seq<U32>, pool: Text, c: Arena, offs: seq<nat>)
    requires Written(w, pool, c, offs)
    ensures |w| == RECORD_WORDS * |c| && forall i :: 0 <= i < |c| ==> c[i].parent < PARENT_LIMIT
  {
  }

  /** Room the names of the first k records and the root need at most. */
  function NameRoom(rootName: Name, records: seq<Record>, k: nat): nat
    requires k <= |records|
  {
    if k == 0 then 2 + |rootName| else NameRoom(rootName, records, k - 1) + 2 + |records[k - 1].name|
  }

  /** Writes the records, interns their names and drops every node into its parent's row; the start table serves as cursors. */
  method FillRecords(hash: Name -> U64, b: array<Byte>, l: Layout, rootName: Name, records: seq<Record>, ghost v0: View) returns (ok: bool, pool: Text, ghost offs: seq<nat>, ghost names: map<U64, nat>)
    requires ShortRecords(rootName, records) && Packed(l) && l.n == |records| + 1 && b.Length == FileLength(l) && v0 == ViewOf(b[..], l)
    requires Backward(records) ==> forall p :: 0 <= p <= |records| ==> v0.starts[p] == |Flatten(Frame(records), p)|
    modifies b
    ensures ok <==> Backward(records)
    ensures ok ==> Filling(ViewOf(b[..], l), v0, rootName, records, pool, names, offs, |records| + 1) && |pool| <= NameRoom(rootName, records, |records|)
  {
    hide ViewOf, Filling, WithRecord, RecordWord, Frame, Flatten, Shares;
    var table: map<U64, nat> := map[];
    var off;
    pool, table, off := SpillIntern(hash, [], table, rootName);
    names := table;
    offs := [off];
    if Backward(records) { FillingStarts(v0, rootName, records, pool, table, off); }
    WriteRecord(b, l, 0, Slot(0, rootName, true, 0, true, 0, 0), off);
    for i := 1 to |records| + 1
      invariant TableOk(pool, table) && names == table && |pool| <= NameRoom(rootName, records, i - 1)
      invariant forall k :: 0 <= k < i - 1 ==> records[k].parent <= k
      invariant Backward(records) ==> Filling(ViewOf(b[..], l), v0, rootName, records, pool, names, offs, i)
    {
      var r := records[i - 1];
      if r.parent >= i {
        return false, pool, offs, names;
      }
      ghost var pool0, names0 := pool, table;
      pool, table, off := SpillIntern(hash, pool, table, r.name);
      names := table;
      if Backward(records) {
        FillingNext(ViewOf(b[..], l), v0, rootName, records, pool0, names0, pool, names, offs, off, i);
      }
      PutSpillNode(b, l, RawSlot(rootName, records, i), off, i);
      offs := offs + [off];
    }
    ok := true;
  }

  method PutSpillNode(b: array<Byte>, l: Layout, e: Slot, off: nat, i: nat)
    requires Packed(l) && b.Length == FileLength(l) && 0 < i < l.n && e.parent < i && l.n <= PARENT_LIMIT
    modifies b
    ensures old(ViewOf(b[..], l)).starts[e.parent] < l.n - 1 ==>
              ViewOf(b[..], l) == old(ViewOf(b[..], l)).(records := WithRecord(old(ViewOf(b[..], l)).records, i, e, off),
                kids := old(ViewOf(b[..], l)).kids[old(ViewOf(b[..], l)).starts[e.parent] := i],
                starts := old(ViewOf(b[..], l)).starts[e.parent := old(ViewOf(b[..], l)).starts[e.parent] + 1])
  {
    hide ViewOf, WithRecord;
    WriteRecord(b, l, i, e, off);
    var pos := StartAt(b, l, e.parent);
    if pos < l.n - 1 {
      PutKid(b, l, pos, i);
      PutStart(b, l, e.parent, pos + 1);
    }
  }

  lemma FillingStarts(v0: View, rootName: Name, records: seq<Record>, pool: Text, names: map<U64, nat>, off: nat)
    requires Backward(records) && ShortRecords(rootName, records) && TableOk(pool, names) && NameIn(pool, off) == Some(rootName)
    requires |v0.starts| == |records| + 2 && |v0.kids| == |records| && |v0.records| == RECORD_WORDS * (|records| + 1)
    requires forall p :: 0 <= p <= |records| ==> v0.starts[p] == |Flatten(Frame(records), p)|
    ensures Filling(v0.(records := WithRecord(v0.records, 0, Slot(0, rootName, true, 0, true, 0, 0), off)), v0, rootName, records, pool, names, [off], 1)
  {
    hide WithRecord, Frame, Flatten, NameIn, RecordWord;
    var c, n := Frame(records), |records| + 1;
    FrameFlatSize(records);
    KidsStart(c, v0.kids, v0.starts[..n]);
    RawIsNarrow(rootName, records);
    assert Written(v0.records, pool, RawSlots(rootName, records), []);
    WrittenNext(v0.records, pool, pool, RawSlots(rootName, records), [], off);
  }

  lemma RawIsNarrow(rootName: Name, records: seq<Record>)
    requires Backward(records) && ShortRecords(rootName, records)
    ensures Narrow(RawSlots(rootName, records))
  {
  }

  // -- Totals in written records -----------------------------------------------------------------------

  /** Slots whose counts fit a record. */
  predicate Countable(t: Arena)
  {
    forall i :: 0 <= i < |t| ==> t[i].files <= MAX_U32
  }

  /** The written records are these slots. */
  ghost predicate Holding(w: seq<U32>, t: Arena, offs: seq<nat>)
  {
    Narrow(t) && Countable(t) && |offs| == |t| && w == RecordTable(t, offs)
  }

  lemma TotalsChange(t: Arena, offs: seq<nat>, i: nat, size: U64, files: U32)
    requires Narrow(t) && |offs| == |t| && i < |t|
    ensures RecordTable(t[i := t[i].(size := size, files := files)], offs)
         == RecordTable(t, offs)[RECORD_WORDS * i + 2 := size % TWO_TO_THE_32][RECORD_WORDS * i + 3 := size / TWO_TO_THE_32][RECORD_WORDS * i + 5 := files]
  {
    var t' := t[i := t[i].(size := size, files := files)];
    var x := RecordTable(t', offs);
    var y := RecordTable(t, offs)[RECORD_WORDS * i + 2 := size % TWO_TO_THE_32][RECORD_WORDS * i + 3 := size / TWO_TO_THE_32][RECORD_WORDS * i + 5 := files];
    forall m: nat | m < RECORD_WORDS * |t| ensures x[m] == y[m] {
      if m / RECORD_WORDS == i { WordOf(m, i); }
    }
  }

  lemma WordOf(m: nat, i: nat)
    requires m / RECORD_WORDS == i
    ensures m == RECORD_WORDS * i + m % RECORD_WORDS
  {
  }

  method SetTotals(b: array<Byte>, l: Layout, i: nat, size: U64, files: U32, ghost t: Arena, ghost offs: seq<nat>)
    requires Packed(l) && b.Length == FileLength(l) && i < l.n == |t| && Holding(ViewOf(b[..], l).records, t, offs)
    modifies b
    ensures Holding(ViewOf(b[..], l).records, t[i := t[i].(size := size, files := files)], offs)
    ensures ViewOf(b[..], l) == old(ViewOf(b[..], l)).(records := ViewOf(b[..], l).records)
  {
    hide ViewOf, RecordTable;
    TotalsChange(t, offs, i, size, files);
    var k := RECORD_WORDS * i;
    PutRecordWord(b, l, k + 2, size % TWO_TO_THE_32);
    PutRecordWord(b, l, k + 3, size / TWO_TO_THE_32);
    PutRecordWord(b, l, k + 5, files);
  }

  method TotalsAt(b: array<Byte>, l: Layout, i: nat, ghost t: Arena, ghost offs: seq<nat>) returns (parent: U32, isDir: bool, size: U64, files: U32)
    requires Packed(l) && b.Length == FileLength(l) && i < l.n == |t| && Holding(ViewOf(b[..], l).records, t, offs)
    ensures parent == t[i].parent && isDir == t[i].isDir && size == t[i].size && files == t[i].files
  {
    hide U32At, BitsParent, BitsDir, BitsUsed, RecordBits, InternAll;
    var at := l.eo + i * 24;
    var bits := U32At(b[..], at);
    parent, isDir, size, files := BitsParent(bits), BitsDir(bits), U64At(b[..], at + 8), U32At(b[..], at + 20);
    ghost var w := WordsAt(b[..], l.eo, RECORD_WORDS * l.n);
    WordRead(b[..], l, i, 0, t, offs);
    WordRead(b[..], l, i, 2, t, offs);
    WordRead(b[..], l, i, 3, t, offs);
    WordRead(b[..], l, i, 5, t, offs);
  }

  lemma WordRead(b: Text, l: Layout, i: nat, k: nat, t: Arena, offs: seq<nat>)
    requires Packed(l) && |b| == FileLength(l) && i < l.n == |t| && Holding(ViewOf(b, l).records, t, offs) && k < RECORD_WORDS
    ensures U32At(b, l.eo + i * 24 + 4 * k) == RecordWord(t[i], offs[i], k)
  {
    hide U32At, RecordWord, RecordTable;
    TableWord(t, offs, i, k);
    assert WordsAt(b, l.eo, RECORD_WORDS * l.n)[RECORD_WORDS * i + k] == U32At(b, l.eo + 4 * (RECORD_WORDS * i + k));
  }

  // -- Directories lose their own sizes, then gather ------------------------------------------------------

  function ZeroedTo(t: Arena, i: nat): (r: Arena)
    ensures |r| == |t| && forall k :: 0 <= k < |t| ==> r[k] == if k < i && t[k].isDir then t[k].(size := 0, files := 0) else t[k]
  {
    seq(|t|, (k: nat) requires k < |t| => if k < i && t[k].isDir then t[k].(size := 0, files := 0) else t[k])
  }

  lemma ZeroedRaw(rootName: Name, records: seq<Record>)
    ensures ZeroedTo(RawSlots(rootName, records), |records| + 1) == Filled(SpillSlots(rootName, 0, records))
  {
    var n := |records| + 1;
    forall i | 0 <= i < n ensures ZeroedTo(RawSlots(rootName, records), n)[i] == Filled(SpillSlots(rootName, 0, records))[i] {
      if i > 0 { assert SpillSlots(rootName, 0, records)[i] == SpillSlot(records[i - 1]); }
    }
  }

  method ZeroDirs(b: array<Byte>, l: Layout, ghost t: Arena, ghost offs: seq<nat>)
    requires Packed(l) && b.Length == FileLength(l) && l.n == |t| && Holding(ViewOf(b[..], l).records, t, offs)
    modifies b
    ensures Holding(ViewOf(b[..], l).records, ZeroedTo(t, |t|), offs)
    ensures ViewOf(b[..], l) == old(ViewOf(b[..], l)).(records := ViewOf(b[..], l).records)
  {
    hide ViewOf, Holding;
    ghost var v0 := ViewOf(b[..], l);
    assert ZeroedTo(t, 0) == t;
    for i := 0 to l.n
      invariant Holding(ViewOf(b[..], l).records, ZeroedTo(t, i), offs) && ViewOf(b[..], l) == v0.(records := ViewOf(b[..], l).records)
    {
      var parent, isDir, size, files := TotalsAt(b, l, i, ZeroedTo(t, i), offs);
      assert ZeroedTo(t, i + 1) == if t[i].isDir then ZeroedTo(t, i)[i := ZeroedTo(t, i)[i].(size := 0, files := 0)] else ZeroedTo(t, i);
      if isDir {
        SetTotals(b, l, i, 0, 0, ZeroedTo(t, i), offs);
      }
    }
  }

  lemma {:induction false} PouredFacts(v: Arena, i: nat)
    requires InsideParents(v) && 0 < i < |v|
    ensures PouredFrom(v, i) == PouredFrom(Poured(v, i), i - 1) && InsideParents(Poured(v, i))
  {
  }

  method PourUp(b: array<Byte>, l: Layout, ghost t: Arena, ghost offs: seq<nat>)
    requires Packed(l) && b.Length == FileLength(l) && l.n == |t| && Holding(ViewOf(b[..], l).records, t, offs) && InsideParents(t)
    modifies b
    ensures Holding(ViewOf(b[..], l).records, PouredFrom(t, |t| - 1), offs)
    ensures ViewOf(b[..], l) == old(ViewOf(b[..], l)).(records := ViewOf(b[..], l).records)
  {
    hide ViewOf, Holding, PouredFrom;
    ghost var v0, v := ViewOf(b[..], l), t;
    var i := l.n - 1;
    while i > 0
      invariant 0 <= i < l.n == |v| && Holding(ViewOf(b[..], l).records, v, offs) && ViewOf(b[..], l) == v0.(records := ViewOf(b[..], l).records)
      invariant InsideParents(v) && PouredFrom(v, i) == PouredFrom(t, |t| - 1)
    {
      PouredFacts(v, i);
      var parent, _, size, files := TotalsAt(b, l, i, v, offs);
      var _, _, parentSize, parentFiles := TotalsAt(b, l, parent, v, offs);
      SetTotals(b, l, parent, (parentSize + size) % TWO_TO_THE_64, (parentFiles + files) % TWO_TO_THE_32, v, offs);
      v := Poured(v, i);
      i := i - 1;
    }
    PouredNothing(v);
  }

  lemma {:induction false} PouredNothing(v: Arena)
    requires InsideParents(v)
    ensures PouredFrom(v, 0) == v
  {
  }

  method CountKinds(b: array<Byte>, l: Layout, ghost t: Arena, ghost offs: seq<nat>) returns (files: nat, dirs: nat)
    requires Packed(l) && b.Length == FileLength(l) && l.n == |t| && Holding(ViewOf(b[..], l).records, t, offs) && forall i :: 0 <= i < |t| ==> t[i].used
    ensures files == CountKind(t, false) && dirs == CountKind(t, true) && files + dirs == |t|
  {
    hide ViewOf, Holding;
    files, dirs := 0, 0;
    for i := 0 to l.n
      invariant files == Sum(i, KindWeight(t, false)) && dirs == Sum(i, KindWeight(t, true)) && files + dirs == i
    {
      var _, isDir, _, _ := TotalsAt(b, l, i, t, offs);
      if isDir {
        dirs := dirs + 1;
      } else {
        files := files + 1;
      }
    }
  }

  // -- The file ------------------------------------------------------------------------------------------

  /** A file in the names-last layout: tables for t over the parent graph c, these reserved header words, then the pool its names are found in. */
  ghost predicate IsSpillFile(host: Host, b: Text, v: Volume, meta: Meta, t: Arena, c: Arena, pool: Text, offs: seq<nat>, reserved: seq<U32>)
  {
    && 0 < |t| == |c| == |offs| && Narrow(t) && |reserved| == 8 && |b| == FileLength(SpillLayout(v, |t|, |pool|)) + |pool| <= MAX_U32
    && b[FileLength(SpillLayout(v, |t|, |pool|))..] == pool
    && (forall i :: 0 <= i < |t| ==> NameIn(pool, offs[i]) == Some(t[i].name))
    && ViewOf(b[..FileLength(SpillLayout(v, |t|, |pool|))], SpillLayout(v, |t|, |pool|))
       == View(HeadTable(SpillLayout(v, |t|, |pool|), meta, Checksum(host, b, 72), reserved), Labels(SpillLayout(v, |t|, |pool|), v), RecordTable(t, offs), StartTable(c), Flatten(c, |c|))
  }

  /** Tables read in the file are tables read in its prefix. */
  lemma PrefixWords(b: Text, k: nat, off: nat, n: nat)
    requires off + 4 * n <= k <= |b|
    ensures WordsAt(b, off, n) == WordsAt(b[..k], off, n)
  {
    forall i: nat | i < n ensures U32At(b, off + 4 * i) == U32At(b[..k], off + 4 * i) {
      assert b[..k][off + 4 * i] == b[off + 4 * i];
    }
  }

  lemma SpillSections(v: Volume, n: nat, poolLen: nat, length: nat)
    requires 0 < n <= PARENT_LIMIT && length == FileLength(SpillLayout(v, n, poolLen)) + poolLen <= MAX_U32
    ensures var l := SpillLayout(v, n, poolLen);
            Aligned(l) && InFile(l, length) && Disjoint(Sections(l)) && HeadFits(l) && l.poolLen == poolLen && l.mountLen == |v.mount| && l.nameLen == |v.name|
  {
    var l := SpillLayout(v, n, poolLen);
    FiveApart(Section(0, HEADER + l.mountLen + l.nameLen), Section(l.po, l.poolLen), Section(l.eo, l.n * 24), Section(l.cs, (l.n + 1) * 4), Section(l.ca, l.kidCount * 4));
  }

  lemma SpillHeader(host: Host, b: Text, v: Volume, meta: Meta, t: Arena, c: Arena, pool: Text, offs: seq<nat>, reserved: seq<U32>)
    requires IsSpillFile(host, b, v, meta, t, c, pool, offs, reserved) && |t| <= PARENT_LIMIT
    ensures |b| >= HEADER && ReadLayout(b) == SpillLayout(v, |t|, |pool|) && ReadMeta(b) == meta && U64At(b, 72) == Checksum(host, b, 72)
    ensures U32At(b, 8) == 7 && b[..8] == BASE_MAGIC
  {
    hide U32At, U64At, WordsAt, Checksum, ReadMeta, ReadLayout, RecordTable, StartTable, Flatten, Labels, InFile, Disjoint, Aligned, SpillLayout;
    var l := SpillLayout(v, |t|, |pool|);
    SpillSections(v, |t|, |pool|, |b|);
    PrefixWords(b, FileLength(l), 0, HEAD_WORDS);
    HeaderReads(b, l, meta, Checksum(host, b, 72), reserved);
  }

  lemma SpillLabels(b: Text, l: Layout, v: Volume)
    requires HEADER + |v.mount| + |v.name| <= l.eo <= |b| && b[HEADER..l.eo] == Labels(l, v)
    ensures b[HEADER..HEADER + |v.mount|] == v.mount && b[HEADER..HEADER + |v.mount| + |v.name|] == v.mount + v.name
  {
    var m := b[HEADER..l.eo];
    SubSlice(b, HEADER, l.eo, 0, |v.mount|);
    SubSlice(b, HEADER, l.eo, 0, |v.mount| + |v.name|);
    assert m[0..|v.mount|] == v.mount;
    assert m[0..|v.mount| + |v.name|] == v.mount + v.name;
  }

  lemma SpillRecord(host: Host, b: Text, v: Volume, meta: Meta, t: Arena, c: Arena, pool: Text, offs: seq<nat>, reserved: seq<U32>, i: nat)
    requires IsSpillFile(host, b, v, meta, t, c, pool, offs, reserved) && Compacted(host, t) && i < |t|
    requires var l := SpillLayout(v, |t|, |pool|); InFile(l, |b|) && Pool(b, l) == pool
    ensures RecordAt(b, SpillLayout(v, |t|, |pool|), i) == t[i] && RecordOk(host, b, SpillLayout(v, |t|, |pool|), i)
    ensures U32At(b, SpillLayout(v, |t|, |pool|).eo + i * 24 + 4) == offs[i]
  {
    hide ValidTree, U32At, RecordBits, BitsParent, BitsUsed, BitsDir, NameIn, HeadTable, Labels, StartTable, Flatten, Checksum, SpillLayout;
    var l := SpillLayout(v, |t|, |pool|);
    var w := WordsAt(b, l.eo, RECORD_WORDS * l.n);
    PrefixWords(b, FileLength(l), l.eo, RECORD_WORDS * l.n);
    NodeFits(host, t, i);
    NameInside(pool, offs[i]);
    forall k: nat | k < 6 ensures w[6 * i + k] == RecordWord(t[i], offs[i], k) {
      TableWord(t, offs, i, k);
    }
    RecordReads(b, l.eo, t[i], offs[i], w, i);
  }

  lemma NameInside(pool: Text, off: nat)
    requires NameIn(pool, off).Some?
    ensures off < |pool|
  {
  }

  /** Trees with the same edges have the same rows. */
  lemma {:induction false} RowsAlike(c: Arena, t: Arena, p: nat, n: nat)
    requires |c| == |t| && n <= |c| && forall i: nat {:trigger HeapEdge(c, i)} :: i < |c| ==> HeapEdge(c, i) == HeapEdge(t, i)
    ensures ChildIds(c, p, n) == ChildIds(t, p, n)
  {
    if n > 0 { RowsAlike(c, t, p, n - 1); }
  }

  lemma {:induction false} FlatAlike(c: Arena, t: Arena, p: nat)
    requires |c| == |t| && p <= |c| && forall i: nat {:trigger HeapEdge(c, i)} :: i < |c| ==> HeapEdge(c, i) == HeapEdge(t, i)
    ensures Flatten(c, p) == Flatten(t, p)
  {
    hide HeapEdge;
    if p > 0 {
      FlatAlike(c, t, p - 1);
      RowsAlike(c, t, p - 1, |c|);
    }
  }

  lemma SpillTable(host: Host, b: Text, v: Volume, meta: Meta, t: Arena, c: Arena, pool: Text, offs: seq<nat>, reserved: seq<U32>)
    requires IsSpillFile(host, b, v, meta, t, c, pool, offs, reserved) && Compacted(host, t) && InFile(SpillLayout(v, |t|, |pool|), |b|)
    requires forall i: nat {:trigger HeapEdge(c, i)} :: i < |c| ==> HeapEdge(c, i) == HeapEdge(t, i)
    ensures RowsOk(t, Starts(b, SpillLayout(v, |t|, |pool|)), Flat(b, SpillLayout(v, |t|, |pool|)))
  {
    hide ValidTree, HeadTable, Labels, Checksum, RecordTable, WordsAt, HeapEdge, RowsOk, SpillLayout, Flatten;
    var l := SpillLayout(v, |t|, |pool|);
    PrefixWords(b, FileLength(l), l.cs, l.n + 1);
    PrefixWords(b, FileLength(l), l.ca, l.n - 1);
    forall p | 0 <= p <= |c| ensures Flatten(c, p) == Flatten(t, p) { FlatAlike(c, t, p); }
    assert StartTable(c) == StartTable(t);
    TableIsSound(host, t, Starts(b, l), Flat(b, l));
  }

  /** A streamed file reads back as its tree, under the same conditions as any other. */
  lemma SpillReadsBack(host: Host, b: Text, v: Volume, meta: Meta, t: Arena, c: Arena, pool: Text, offs: seq<nat>, reserved: seq<U32>)
    requires IsSpillFile(host, b, v, meta, t, c, pool, offs, reserved) && Compacted(host, t)
    requires forall i: nat {:trigger HeapEdge(c, i)} :: i < |c| ==> HeapEdge(c, i) == HeapEdge(t, i)
    ensures |b| >= HEADER && InFile(ReadLayout(b), |b|) && Denotes(b) == Decoded(t, CanonRows(t), offs, meta, Checksum(host, b, 72))
    ensures Accepts(host, b, v.mount) <==>
            Checksum(host, b, 72) != 0 && host.utf8(v.mount + v.name) && meta.files == CountKind(t, false) && meta.dirs == CountKind(t, true)
  {
    hide ValidTree, U32At, U64At, RecordAt, RecordOk, RowsOk, Disjoint, CountKind, Aligned, WordsAt, ReadLayout, ReadMeta, Checksum, Starts, Flat, InFile, CanonRows, HeapEdge, Narrow, RecordTable, StartTable, Flatten, HeadTable, SpillLayout, HeadFits;
    CompactedIsStorable(host, t);
    SpillHeader(host, b, v, meta, t, c, pool, offs, reserved);
    var l := SpillLayout(v, |t|, |pool|);
    SpillSections(v, |t|, |pool|, |b|);
    SpillMiddle(host, b, v, meta, t, c, pool, offs, reserved);
    SpillTable(host, b, v, meta, t, c, pool, offs, reserved);
    forall i: nat | i < |t| ensures RecordAt(b, l, i) == t[i] && RecordOk(host, b, l, i) && U32At(b, l.eo + i * 24 + 4) == offs[i] {
      SpillRecord(host, b, v, meta, t, c, pool, offs, reserved, i);
    }
    assert Records(b, l) == t;
    assert NameOffsets(b, l) == offs;
  }

  lemma SpillMiddle(host: Host, b: Text, v: Volume, meta: Meta, t: Arena, c: Arena, pool: Text, offs: seq<nat>, reserved: seq<U32>)
    requires IsSpillFile(host, b, v, meta, t, c, pool, offs, reserved) && InFile(SpillLayout(v, |t|, |pool|), |b|)
    ensures var l := SpillLayout(v, |t|, |pool|);
            Pool(b, l) == pool && b[HEADER..HEADER + |v.mount|] == v.mount && b[HEADER..HEADER + |v.mount| + |v.name|] == v.mount + v.name
  {
    hide WordsAt, HeadTable, RecordTable, StartTable, Flatten, Checksum, NameIn;
    var l := SpillLayout(v, |t|, |pool|);
    assert b[..FileLength(l)][HEADER..l.eo] == b[HEADER..l.eo];
    SpillLabels(b, l, v);
  }

  // -- Putting it together ------------------------------------------------------------------------------------

  method WriteLabels(b: array<Byte>, l: Layout, v: Volume)
    requires Packed(l) && b.Length == FileLength(l) && HEADER + |v.mount| + |v.name| <= l.eo && ViewOf(b[..], l).middle == Zeros(l.eo - HEADER)
    modifies b
    ensures ViewOf(b[..], l) == old(ViewOf(b[..], l)).(middle := Labels(l, v))
  {
    hide ViewOf, Labels;
    CopyView(b[..], l, HEADER, v.mount);
    CopyInto(b, HEADER, v.mount);
    CopyView(b[..], l, HEADER + |v.mount|, v.name);
    CopyInto(b, HEADER + |v.mount|, v.name);
    LabelsFilled(l, v);
  }

  lemma LabelsFilled(l: Layout, v: Volume)
    requires HEADER + |v.mount| + |v.name| <= l.eo
    ensures Splice(Splice(Zeros(l.eo - HEADER), 0, v.mount), |v.mount|, v.name) == Labels(l, v)
  {
  }

  /** Writes where each row starts. */
  method WriteStarts(b: array<Byte>, l: Layout, start: seq<nat>, ghost c: Arena)
    requires Packed(l) && b.Length == FileLength(l) && l.n == |c| == |start| <= PARENT_LIMIT && forall p :: 0 <= p < |start| ==> start[p] <= MAX_U32
    modifies b
    ensures ViewOf(b[..], l) == old(ViewOf(b[..], l)).(starts := ViewOf(b[..], l).starts)
    ensures ViewOf(b[..], l).starts[|c|] == old(ViewOf(b[..], l)).starts[|c|]
    ensures forall p :: 0 <= p < |c| ==> ViewOf(b[..], l).starts[p] == start[p]
  {
    hide ViewOf;
    ghost var v0 := ViewOf(b[..], l);
    for i := 0 to l.n
      invariant ViewOf(b[..], l) == v0.(starts := ViewOf(b[..], l).starts) && ViewOf(b[..], l).starts[l.n] == v0.starts[l.n]
      invariant forall p :: 0 <= p < i ==> ViewOf(b[..], l).starts[p] == start[p]
    {
      PutStart(b, l, i, start[i]);
    }
  }

  lemma {:induction false} StartsDone(c: Arena, w: seq<nat>)
    requires |w| == |c| + 1 && (forall p :: 0 <= p < |c| ==> w[p] == |Flatten(c, p)|) && w[|c|] == |Flatten(c, |c|)|
    ensures w == StartTable(c)
  {
    hide Flatten;
  }

  /** Header and checksum over the tables and the names behind them. */
  method FinishHeader(host: Host, b: array<Byte>, l: Layout, pool: Text, meta: Meta) returns (file: Text)
    requires Packed(l) && b.Length == FileLength(l) && HeadFits(l) && ViewOf(b[..], l).head == NoWords(HEAD_WORDS)
    modifies b
    ensures file == b[..] + pool
    ensures ViewOf(b[..], l) == old(ViewOf(b[..], l)).(head := HeadTable(l, meta, Checksum(host, file, 72), NoWords(8)))
  {
    hide ViewOf, HeadTable, Checksum, SealedHead, With64, LE32;
    WriteHead(b, l, meta);
    ghost var b0 := b[..];
    var sum := Checksum(host, b[..] + pool, 72);
    PutHeadView(b0, l, 18, sum % TWO_TO_THE_32);
    ghost var b1 := Splice(b0, 72, LE32(sum % TWO_TO_THE_32));
    PutHeadView(b1, l, 19, sum / TWO_TO_THE_32);
    Put32(b, 72, sum % TWO_TO_THE_32);
    Put32(b, 76, sum / TWO_TO_THE_32);
    file := b[..] + pool;
    SameChecksum(host, b0, pool, LE32(sum % TWO_TO_THE_32), LE32(sum / TWO_TO_THE_32));
    HeadSealed(l, meta, sum);
    SealedIs(HeadTable(l, meta, 0, NoWords(8)), sum);
  }

  lemma SealedIs(w: seq<U32>, sum: U64)
    requires |w| == HEAD_WORDS
    ensures SealedHead(w, sum) == w[18 := sum % TWO_TO_THE_32][19 := sum / TWO_TO_THE_32]
  {
  }

  lemma SameChecksum(host: Host, b: Text, pool: Text, x: Text, y: Text)
    requires |b| >= HEADER && |x| == |y| == 4
    ensures Checksum(host, Splice(Splice(b, 72, x), 76, y) + pool, 72) == Checksum(host, b + pool, 72)
  {
    hide Checksum;
    SplicePair(b, 72, x, y);
    assert Splice(b, 72, x + y) + pool == Splice(b + pool, 72, x + y);
    ChecksumIgnoresItself(host, b + pool, x + y);
  }

  ghost function SpillTree(rootName: Name, records: seq<Record>): (t: Arena)
    requires Backward(records)
    ensures |t| == |records| + 1
  {
    BackwardInside(rootName, records);
    PouredFrom(Filled(SpillSlots(rootName, 0, records)), |records|)
  }

  lemma BackwardInside(rootName: Name, records: seq<Record>)
    requires Backward(records)
    ensures InsideParents(Filled(SpillSlots(rootName, 0, records)))
  {
    var u := SpillSlots(rootName, 0, records);
    forall i | 0 <= i < |u| ensures u[i].parent < |u| {
      if i > 0 { assert u[i] == SpillSlot(records[i - 1]); }
    }
  }

  lemma {:induction false} PouringKeeps(v: Arena, i: nat)
    requires InsideParents(v) && i < |v|
    ensures forall k :: 0 <= k < |v| ==> PouredFrom(v, i)[k] == v[k].(size := PouredFrom(v, i)[k].size, files := PouredFrom(v, i)[k].files)
    decreases i
  {
    if i > 0 {
      PouredInside(v, i);
      PouringKeeps(Poured(v, i), i - 1);
    }
  }

  /** Fills records and child tables as first written; the names collect beside them. */
  method FillFirst(hash: Name -> U64, b: array<Byte>, l: Layout, rootName: Name, records: seq<Record>, counts: seq<nat>)
    returns (ok: bool, names: Text, ghost offs: seq<nat>)
    requires ShortRecords(rootName, records) && Packed(l) && l.n == |records| + 1 == |counts| && b.Length == FileLength(l) && Sum(l.n, Entry(counts)) == |records|
    requires Backward(records) ==> forall p :: 0 <= p < |records| + 1 ==> counts[p] == |ChildIds(Frame(records), p, |records| + 1)|
    modifies b
    ensures ok <==> Backward(records)
    ensures ok ==> Holding(ViewOf(b[..], l).records, RawSlots(rootName, records), offs) && |names| <= NameRoom(rootName, records, |records|)
    ensures ok ==> ViewOf(b[..], l) == old(ViewOf(b[..], l)).(records := ViewOf(b[..], l).records, starts := StartTable(Frame(records)), kids := Flatten(Frame(records), |records| + 1))
    ensures ok ==> forall i :: 0 <= i <= |records| ==> NameIn(names, offs[i]) == Some(RawSlots(rootName, records)[i].name)
  {
    hide ViewOf, Frame, Flatten, ChildIds, Filling, Holding, Sum, StartTable, NameIn;
    ghost var n, v0 := |records| + 1, ViewOf(b[..], l);
    var start, all := RowStarts(counts, Frame(records));
    WriteStarts(b, l, start, Frame(records));
    PutStart(b, l, l.n, all);
    ghost var v1 := ViewOf(b[..], l);
    ghost var table;
    ok, names, offs, table := FillRecords(hash, b, l, rootName, records, v1);
    if !ok {
      return;
    }
    FrameFlatSize(records);
    FilledIn(ViewOf(b[..], l), v1, rootName, records, names, table, offs);
    WriteStarts(b, l, start, Frame(records));
    StartsDone(Frame(records), ViewOf(b[..], l).starts);
  }

  /** Fills records and child tables, totals included. */
  method FillTables(hash: Name -> U64, b: array<Byte>, l: Layout, rootName: Name, records: seq<Record>, counts: seq<nat>)
    returns (ok: bool, names: Text, total: U64, files: nat, dirs: nat, ghost offs: seq<nat>)
    requires ShortRecords(rootName, records) && Packed(l) && l.n == |records| + 1 == |counts| && b.Length == FileLength(l) && Sum(l.n, Entry(counts)) == |records|
    requires Backward(records) ==> forall p :: 0 <= p < |records| + 1 ==> counts[p] == |ChildIds(Frame(records), p, |records| + 1)|
    modifies b
    ensures ok <==> Backward(records)
    ensures ok ==> Holding(ViewOf(b[..], l).records, SpillTree(rootName, records), offs) && |names| <= NameRoom(rootName, records, |records|)
    ensures ok ==> ViewOf(b[..], l) == old(ViewOf(b[..], l)).(records := ViewOf(b[..], l).records, starts := StartTable(Frame(records)), kids := Flatten(Frame(records), |records| + 1))
    ensures ok ==> forall i :: 0 <= i <= |records| ==> NameIn(names, offs[i]) == Some(SpillTree(rootName, records)[i].name)
    ensures ok ==> total == SpillTree(rootName, records)[0].size && files == CountKind(SpillTree(rootName, records), false) && dirs == CountKind(SpillTree(rootName, records), true)
    ensures ok ==> files + dirs == |records| + 1
  {
    hide ViewOf, Frame, Flatten, ChildIds, SpillTree, Holding, Sum, CountKind, StartTable, NameIn, RawSlot, Backward, PouredFrom, Filled, ZeroedTo, SpillSlots;
    files, dirs, total := 0, 0, 0;
    ok, names, offs := FillFirst(hash, b, l, rootName, records, counts);
    if !ok {
      return;
    }
    ZeroDirs(b, l, RawSlots(rootName, records), offs);
    ZeroedRaw(rootName, records);
    BackwardInside(rootName, records);
    PourUp(b, l, Filled(SpillSlots(rootName, 0, records)), offs);
    TreeNames(rootName, records);
    files, dirs := CountKinds(b, l, SpillTree(rootName, records), offs);
    var _, _, size, _ := TotalsAt(b, l, 0, SpillTree(rootName, records), offs);
    total := size;
  }

  lemma {:induction false} TreeNames(rootName: Name, records: seq<Record>)
    requires Backward(records)
    ensures SpillTree(rootName, records) == PouredFrom(Filled(SpillSlots(rootName, 0, records)), |records|)
    ensures forall i :: 0 <= i <= |records| ==> SpillTree(rootName, records)[i].name == RawSlots(rootName, records)[i].name && SpillTree(rootName, records)[i].used
  {
    var u := SpillSlots(rootName, 0, records);
    BackwardInside(rootName, records);
    PouringKeeps(Filled(u), |records|);
    forall i | 0 <= i <= |records| ensures Filled(u)[i].name == RawSlots(rootName, records)[i].name && Filled(u)[i].used {
      if i > 0 { assert u[i] == SpillSlot(records[i - 1]); }
    }
  }

  /** After the last record every table is in place but the start cursors. */
  lemma {:induction false} FilledIn(w: View, v0: View, rootName: Name, records: seq<Record>, pool: Text, names: map<U64, nat>, offs: seq<nat>)
    requires Filling(w, v0, rootName, records, pool, names, offs, |records| + 1) && ShortRecords(rootName, records)
    ensures |offs| == |records| + 1 && Holding(w.records, RawSlots(rootName, records), offs) && w.kids == Flatten(Frame(records), |records| + 1)
    ensures w == v0.(records := w.records, starts := w.starts, kids := w.kids) && |w.starts| == |v0.starts| == |records| + 2 && w.starts[|records| + 1] == v0.starts[|records| + 1]
    ensures forall i :: 0 <= i <= |records| ==> NameIn(pool, offs[i]) == Some(RawSlots(rootName, records)[i].name)
  {
    hide Frame, Flatten, ChildIds, Cursors, NameIn, RecordTable, RecordWord;
    WrittenAll(w.records, pool, RawSlots(rootName, records), offs);
    KidsLength(Frame(records), w.kids, |records| + 1);
    KidsUpTo(Frame(records), w.kids, |records| + 1);
  }

  lemma {:induction false} KidsLength(c: Arena, kids: seq<nat>, i: nat)
    requires KidsTo(c, kids, i)
    ensures |kids| == |Flatten(c, |c|)|
  {
  }

  /** The pool's length changes nothing but the header. */
  lemma LayoutWithPool(v: Volume, n: nat, poolLen: nat)
    requires 0 < n && FileLength(SpillLayout(v, n, 0)) + poolLen <= MAX_U32
    ensures SpillLayout(v, n, poolLen) == SpillLayout(v, n, 0).(poolLen := poolLen) && HeadFits(SpillLayout(v, n, poolLen))
    ensures forall b: Text :: |b| == FileLength(SpillLayout(v, n, 0)) ==> ViewOf(b, SpillLayout(v, n, poolLen)) == ViewOf(b, SpillLayout(v, n, 0))
  {
  }

  lemma {:induction false} FileIsSpill(host: Host, file: Text, b: Text, v: Volume, meta: Meta, t: Arena, c: Arena, pool: Text, offs: seq<nat>)
    requires 0 < |t| == |c| == |offs| && Narrow(t) && file == b + pool && |b| == FileLength(SpillLayout(v, |t|, |pool|)) && |b| + |pool| <= MAX_U32
    requires forall i :: 0 <= i < |t| ==> NameIn(pool, offs[i]) == Some(t[i].name)
    requires HeadFits(SpillLayout(v, |t|, |pool|))
    requires ViewOf(b, SpillLayout(v, |t|, |pool|)) == View(HeadTable(SpillLayout(v, |t|, |pool|), meta, Checksum(host, file, 72), NoWords(8)),
               Labels(SpillLayout(v, |t|, |pool|), v), RecordTable(t, offs), StartTable(c), Flatten(c, |c|))
    ensures IsSpillFile(host, file, v, meta, t, c, pool, offs, NoWords(8))
  {
    hide ViewOf, HeadTable, RecordTable, StartTable, Flatten, Labels, Checksum, NameIn;
    assert file[..|b|] == b && file[|b|..] == pool;
  }

  function SpillNames(records: seq<Record>): (r: seq<Name>)
    ensures |r| == |records|
  {
    seq(|records|, k requires 0 <= k < |records| => records[k].name)
  }

  lemma NamesAreShort(rootName: Name, records: seq<Record>)
    requires ShortNames([rootName] + SpillNames(records)) && |records| < PARENT_LIMIT
    ensures ShortRecords(rootName, records)
  {
    var names := [rootName] + SpillNames(records);
    assert names[0] == rootName;
    forall k | 0 <= k < |records| ensures |records[k].name| <= MAX_U16 { assert names[k + 1] == records[k].name; }
  }

  /** Streams a spill into a base file in two passes over its records. */
  method FillSpillIndex(host: Host, hash: Name -> U64, v: Volume, rootName: Name, records: seq<Record>, event: U64, now: U64)
    returns (ok: bool, file: Text, ghost meta: Meta, ghost pool: Text, ghost offs: seq<nat>)
    requires ShortNames([rootName] + SpillNames(records))
    requires FileLength(SpillLayout(v, |records| + 1, 0)) + NameRoom(rootName, records, |records|) <= MAX_U32
    ensures ok <==> 0 < |records| < PARENT_LIMIT && Backward(records)
    ensures ok ==> IsSpillFile(host, file, v, meta, SpillTree(rootName, records), Frame(records), pool, offs, NoWords(8))
    ensures ok ==> meta.lastEvent == event && meta.scannedAt == now && meta.totalSize == SpillTree(rootName, records)[0].size
    ensures ok ==> meta.files == CountKind(SpillTree(rootName, records), false) && meta.dirs == CountKind(SpillTree(rootName, records), true)
  {
    hide ViewOf, Frame, Flatten, Filling, SpillLayout, SpillTree, CountKind, HeadTable, IsSpillFile, HeadFits, ChildIds, StartTable, RecordTable;
    var n := |records| + 1;
    file, meta, pool, offs := [], Meta(0, 0, 0, 0, 0), [], [];
    if |records| == 0 || |records| >= PARENT_LIMIT {
      return false, file, meta, pool, offs;
    }
    NamesAreShort(rootName, records);
    var counts;
    ok, counts := CountSpillChildren(records, n);
    if !ok {
      return;
    }
    var l := SpillLayout(v, n, 0);
    var b := new Byte[FileLength(l)](_ => 0);
    ZeroView(b[..], l);
    WriteLabels(b, l, v);
    var names, total, files, dirs;
    ok, names, total, files, dirs, offs := FillTables(hash, b, l, rootName, records, counts);
    if !ok {
      return;
    }
    pool := names;
    LayoutWithPool(v, n, |names|);
    l := SpillLayout(v, n, |names|);
    meta := Meta(event, now, files, dirs, total);
    file := FinishHeader(host, b, l, names, Meta(event, now, files, dirs, total));
    FileIsSpill(host, file, b[..], v, meta, SpillTree(rootName, records), Frame(records), names, offs);
  }

  // -- What the file says --------------------------------------------------------------------------------------

  lemma SoundIsBackward(host: Host, records: seq<Record>)
    requires SpillOk(host, records)
    ensures Backward(records)
  {
    forall k | 0 <= k < |records| ensures records[k].parent <= k { assert EntrySound(host, records, k); }
  }

  /** Pouring the records of a sound spill gives the tree rolled up, files counting themselves. */
  lemma StreamedIsRolledUp(host: Host, rootName: Name, records: seq<Record>)
    requires SpillOk(host, records) && ShortRecords(rootName, records) && BytesBelow(SpillSlots(rootName, 0, records), 0) <= MAX_U64
    ensures Backward(records) && SpillTree(rootName, records) == Filled(RollUp(SpillSlots(rootName, 0, records)))
  {
    hide BytesBelow, RollUp, Filled, SpillSlots, RolledDown, LiveParentFirst, EntrySound;
    SoundIsBackward(host, records);
    var u := SpillSlots(rootName, 0, records);
    SpillIsParentsFirst(host, rootName, 0, records);
    FreshDirs(rootName, records);
    RollStarts(u);
    BackwardInside(rootName, records);
    PouringRollsUp(u, u, |records|);
  }

  /** Rolling up and filling in change totals only. */
  lemma RolledShape(u: Arena)
    ensures |Filled(RollUp(u))| == |u|
    ensures forall i :: 0 <= i < |u| ==> Filled(RollUp(u))[i] == u[i].(size := Filled(RollUp(u))[i].size, files := Filled(RollUp(u))[i].files)
  {
    hide RollUp;
    RollUpIsSame(u);
  }

  lemma {:induction false} RolledFits(u: Arena, i: nat)
    requires LiveParentFirst(u) && i < |u| <= PARENT_LIMIT
    ensures Filled(RollUp(u))[i].files <= MAX_U32
  {
    hide RollUp, LiveParentFirst;
    RollUpIsSame(u);
    if u[i].isDir { DirFits(u, i); }
  }

  lemma {:induction false} DirFits(u: Arena, i: nat)
    requires LiveParentFirst(u) && i < |u| <= PARENT_LIMIT && u[i].isDir
    ensures RollUp(u)[i].files <= MAX_U32
  {
    hide RollUp, FilesBelow, BytesBelow, OnCycle, Edges;
    ParentsFirstIsTree(u);
    NotOnCycle(u, i);
    RollUpIsExact(u, i);
    FilesBounded(u, i);
  }

  /** What a sound spill says about node i. */
  lemma SpillNodeSound(host: Host, rootName: Name, records: seq<Record>, i: nat)
    requires SpillOk(host, records) && ShortRecords(rootName, records) && host.utf8(rootName) && i <= |records|
    ensures var e := SpillSlots(rootName, 0, records)[i];
            && e.parent < PARENT_LIMIT && e.mtime <= MAX_U32 && |e.name| <= MAX_U16 && host.utf8(e.name) && e.used
            && (i > 0 ==> SafeName(host, e.name) && e.parent < i && e.parent == records[i - 1].parent)
  {
    hide SafeName;
    if i > 0 {
      assert SpillSlots(rootName, 0, records)[i] == SpillSlot(records[i - 1]);
      assert EntrySound(host, records, i - 1);
    }
  }

  /** A live tree of sound links is compact. */
  lemma CompactedFrom(host: Host, t: Arena)
    requires RootOk(t) && forall i: nat :: i < |t| ==> t[i].used && Representable(host, t[i]) && LinkOk(host, t, i, true)
    ensures Compacted(host, t)
  {
    hide Representable, SafeName, Acyclic;
    forall j | 0 < j < |t| && t[j].used ensures t[j].parent < j { assert LinkOk(host, t, j, true); }
    BackwardIsAcyclic(t);
  }

  /** Totals do not touch links. */
  lemma LinkKept(host: Host, u: Arena, t: Arena, i: nat)
    requires LiveParentFirst(u) && |t| == |u| && i < |u| && forall k :: 0 <= k < |u| ==> t[k] == u[k].(size := t[k].size, files := t[k].files)
    requires i > 0 ==> SafeName(host, u[i].name)
    ensures t[i].used && t[i].parent == u[i].parent && t[i].name == u[i].name && t[i].mtime == u[i].mtime && LinkOk(host, t, i, true)
    ensures i > 0 ==> t[i].parent < i && HeapEdge(t, i) == Some(t[i].parent as nat)
  {
    hide SafeName;
    if i > 0 { assert IsDir(u, u[i].parent); }
  }

  lemma StreamedNode(host: Host, rootName: Name, records: seq<Record>, i: nat)
    requires SpillOk(host, records) && ShortRecords(rootName, records) && host.utf8(rootName) && i <= |records|
    ensures var t := Filled(RollUp(SpillSlots(rootName, 0, records)));
            && |t| == |records| + 1 && t[i].used && Representable(host, t[i]) && LinkOk(host, t, i, true)
            && (i > 0 ==> t[i].parent < i && t[i].parent == records[i - 1].parent && HeapEdge(t, i) == Some(t[i].parent as nat))
  {
    hide SafeName, RollUp, Filled, SpillSlots, SpillOk, LiveParentFirst, LinkOk, HeapEdge;
    var u := SpillSlots(rootName, 0, records);
    SpillIsParentsFirst(host, rootName, 0, records);
    RolledShape(u);
    RolledFits(u, i);
    SpillNodeSound(host, rootName, records, i);
    LinkKept(host, u, Filled(RollUp(u)), i);
  }

  /** The streamed tree is one files can hold, with the edges its records name. */
  lemma StreamedIsCompacted(host: Host, rootName: Name, records: seq<Record>)
    requires SpillOk(host, records) && ShortRecords(rootName, records) && host.utf8(rootName)
    ensures Compacted(host, Filled(RollUp(SpillSlots(rootName, 0, records))))
    ensures forall i: nat {:trigger HeapEdge(Frame(records), i)} :: i <= |records| ==> HeapEdge(Frame(records), i) == HeapEdge(Filled(RollUp(SpillSlots(rootName, 0, records))), i)
  {
    hide RollUp, Filled, SpillSlots, Representable, LinkOk, Frame, SpillOk, HeapEdge, Compacted;
    var t := Filled(RollUp(SpillSlots(rootName, 0, records)));
    FilledRoot(rootName, records);
    forall i: nat | i < |t| ensures t[i].used && Representable(host, t[i]) && LinkOk(host, t, i, true) {
      StreamedNode(host, rootName, records, i);
    }
    CompactedFrom(host, t);
    forall i: nat {:trigger HeapEdge(Frame(records), i)} | i <= |records| ensures HeapEdge(Frame(records), i) == HeapEdge(t, i) {
      EdgeAlike(host, rootName, records, i);
    }
  }

  lemma EdgeAlike(host: Host, rootName: Name, records: seq<Record>, i: nat)
    requires SpillOk(host, records) && ShortRecords(rootName, records) && host.utf8(rootName) && i <= |records|
    ensures |Filled(RollUp(SpillSlots(rootName, 0, records)))| == |records| + 1
    ensures HeapEdge(Frame(records), i) == HeapEdge(Filled(RollUp(SpillSlots(rootName, 0, records))), i)
  {
    hide RollUp, Filled, SpillSlots, Frame, SpillOk, Representable, LinkOk;
    SoundIsBackward(host, records);
    StreamedNode(host, rootName, records, i);
    if i > 0 { FrameEdge(records, i); }
  }

  lemma FilledRoot(rootName: Name, records: seq<Record>)
    ensures var t := Filled(RollUp(SpillSlots(rootName, 0, records))); |t| == |records| + 1 && IsDir(t, 0) && t[0].parent == 0
  {
    hide RollUp;
    RollUpIsSame(SpillSlots(rootName, 0, records));
  }

  /** The index streamed from a sound spill reads back as the very tree materialising it would give. Its counts are always
      true, so it is accepted exactly when its checksum is not zero and its labels are UTF-8. */
  lemma StreamedReadsBack(host: Host, file: Text, v: Volume, meta: Meta, rootName: Name, records: seq<Record>, pool: Text, offs: seq<nat>, reserved: seq<U32>)
    requires SpillOk(host, records) && ShortRecords(rootName, records) && host.utf8(rootName) && BytesBelow(SpillSlots(rootName, 0, records), 0) <= MAX_U64
    requires Backward(records) && IsSpillFile(host, file, v, meta, SpillTree(rootName, records), Frame(records), pool, offs, reserved)
    requires meta.files == CountKind(SpillTree(rootName, records), false) && meta.dirs == CountKind(SpillTree(rootName, records), true)
    ensures |file| >= HEADER && InFile(ReadLayout(file), |file|)
    ensures Denotes(file).slots == Filled(RollUp(SpillSlots(rootName, 0, records))) && Denotes(file).rows == CanonRows(Denotes(file).slots) && Denotes(file).meta == meta
    ensures Accepts(host, file, v.mount) <==> Checksum(host, file, 72) != 0 && host.utf8(v.mount + v.name)
  {
    hide RollUp, Filled, SpillSlots, BytesBelow, SpillTree, CountKind, IsSpillFile, Compacted, HeapEdge, Frame, InFile, ReadLayout, Denotes, Accepts, Checksum, EntrySound;
    StreamedIsRolledUp(host, rootName, records);
    StreamedIsCompacted(host, rootName, records);
    FilledRoot(rootName, records);
    SpillReadsBack(host, file, v, meta, SpillTree(rootName, records), Frame(records), pool, offs, reserved);
  }

  // -- A file no reader takes ------------------------------------------------------------------------------------

  lemma FormReads(b: Text, at: nat, e: Slot, off: nat, w: seq<U32>, i: nat)
    requires e.parent < PARENT_LIMIT && off <= MAX_U32
    requires at + 4 * |w| <= |b| && w == WordsAt(b, at, |w|) && 6 * i + 6 <= |w|
    requires w[6 * i] == RecordWord(e, off, 0) && w[6 * i + 1] == RecordWord(e, off, 1)
    ensures U32At(b, at + i * 24) == RecordBits(e) && U32At(b, at + i * 24 + 4) == off
  {
    hide U32At, RecordBits;
    assert w[6 * i] == U32At(b, at + 24 * i) && w[6 * i + 1] == U32At(b, at + 24 * i + 4);
  }

  /** Links, kind and name of a record read as they were written, sound or not. */
  lemma SpillForm(host: Host, b: Text, v: Volume, meta: Meta, t: Arena, c: Arena, pool: Text, offs: seq<nat>, reserved: seq<U32>, i: nat)
    requires IsSpillFile(host, b, v, meta, t, c, pool, offs, reserved) && i < |t|
    requires var l := SpillLayout(v, |t|, |pool|); InFile(l, |b|) && Pool(b, l) == pool
    ensures var r := RecordAt(b, SpillLayout(v, |t|, |pool|), i);
      r.parent == t[i].parent && r.isDir == t[i].isDir && r.used == t[i].used && r.name == t[i].name
  {
    hide U32At, U64At, WordsAt, RecordBits, BitsParent, BitsUsed, BitsDir, NameIn, HeadTable, Labels, RecordTable, StartTable, Flatten, Checksum, SpillLayout, RecordWord;
    var l := SpillLayout(v, |t|, |pool|);
    var w := WordsAt(b, l.eo, RECORD_WORDS * l.n);
    PrefixWords(b, FileLength(l), l.eo, RECORD_WORDS * l.n);
    NameInside(pool, offs[i]);
    TableWord(t, offs, i, 0);
    TableWord(t, offs, i, 1);
    FormReads(b, l.eo, t[i], offs[i], w, i);
  }

  lemma TreeForm(rootName: Name, records: seq<Record>, i: nat)
    requires Backward(records) && i <= |records|
    ensures var e, u := SpillTree(rootName, records)[i], SpillSlots(rootName, 0, records)[i];
      e.parent == u.parent && e.isDir == u.isDir && e.name == u.name && e.used
  {
    hide SpillSlots;
    var u := SpillSlots(rootName, 0, records);
    BackwardInside(rootName, records);
    PouringKeeps(Filled(u), |records|);
    TreeNames(rootName, records);
  }

  /** A record is sound when its node hangs soundly in the accepted tree. */
  lemma SoundFromLink(host: Host, rootName: Name, records: seq<Record>, s: Arena, k: nat)
    requires Backward(records) && |s| == |records| + 1 && k < |records|
    requires forall i :: 0 <= i < |s| ==> var e := SpillTree(rootName, records)[i]; s[i].parent == e.parent && s[i].isDir == e.isDir && s[i].used == e.used && s[i].name == e.name
    requires LinkOk(host, s, k + 1, true) && Representable(host, s[k + 1])
    ensures EntrySound(host, records, k)
  {
    hide SpillTree, SpillSlots, SafeName;
    var u := SpillSlots(rootName, 0, records);
    TreeForm(rootName, records, k + 1);
    assert u[k + 1] == SpillSlot(records[k]);
    var p: nat := records[k].parent;
    TreeForm(rootName, records, p);
    if p > 0 { assert u[p] == SpillSlot(records[p - 1]); }
  }

  /** Only the file of a sound spill is ever accepted: the writer leaves names and file parents for its reader to refuse. */
  lemma AcceptedSpillIsSound(host: Host, file: Text, v: Volume, meta: Meta, rootName: Name, records: seq<Record>, pool: Text, offs: seq<nat>, reserved: seq<U32>)
    requires ShortRecords(rootName, records) && Backward(records)
    requires IsSpillFile(host, file, v, meta, SpillTree(rootName, records), Frame(records), pool, offs, reserved)
    requires Accepts(host, file, v.mount)
    ensures SpillOk(host, records) && host.utf8(rootName)
  {
    hide SpillTree, IsSpillFile, Frame, Checksum, EntrySound, SpillLayout, HeaderOk, RecordOk, RecordAt, RowsOk, CountKind, ReadMeta, Acyclic, LinkOk, InFile, Pool, SpillSlots, ReadLayout, Starts, Flat;
    var t, c := SpillTree(rootName, records), Frame(records);
    var l := SpillLayout(v, |t|, |pool|);
    SpillHeader(host, file, v, meta, t, c, pool, offs, reserved);
    SpillLengths(host, file, v, meta, t, c, pool, offs, reserved);
    SpillSections(v, |t|, |pool|, |file|);
    SpillMiddle(host, file, v, meta, t, c, pool, offs, reserved);
    var s := Records(file, l);
    forall i: nat | i < |s| ensures s[i].parent == t[i].parent && s[i].isDir == t[i].isDir && s[i].used == t[i].used && s[i].name == t[i].name {
      SpillForm(host, file, v, meta, t, c, pool, offs, reserved, i);
    }
    forall k | 0 <= k < |records| ensures EntrySound(host, records, k) {
      SoundFromLink(host, rootName, records, s, k);
    }
    TreeForm(rootName, records, 0);
  }

  lemma SpillLengths(host: Host, b: Text, v: Volume, meta: Meta, t: Arena, c: Arena, pool: Text, offs: seq<nat>, reserved: seq<U32>)
    requires IsSpillFile(host, b, v, meta, t, c, pool, offs, reserved)
    ensures |b| == FileLength(SpillLayout(v, |t|, |pool|)) + |pool| <= MAX_U32 && SpillLayout(v, |t|, |pool|).n == |t| > 0
  {
    hide ViewOf, HeadTable, RecordTable, StartTable, Flatten, Labels, Checksum, NameIn;
  }

  /** When a streamed index is accepted: exactly when its spill and root name are sound, its checksum is not zero and its labels are UTF-8. */
  lemma StreamedIsAccepted(host: Host, file: Text, v: Volume, meta: Meta, rootName: Name, records: seq<Record>, pool: Text, offs: seq<nat>, reserved: seq<U32>)
    requires ShortRecords(rootName, records) && Backward(records) && BytesBelow(SpillSlots(rootName, 0, records), 0) <= MAX_U64
    requires IsSpillFile(host, file, v, meta, SpillTree(rootName, records), Frame(records), pool, offs, reserved)
    requires meta.files == CountKind(SpillTree(rootName, records), false) && meta.dirs == CountKind(SpillTree(rootName, records), true)
    ensures Accepts(host, file, v.mount) <==>
            SpillOk(host, records) && host.utf8(rootName) && Checksum(host, file, 72) != 0 && host.utf8(v.mount + v.name)
  {
    hide *;
    if Accepts(host, file, v.mount) {
      AcceptedSpillIsSound(host, file, v, meta, rootName, records, pool, offs, reserved);
    }
    if SpillOk(host, records) && host.utf8(rootName) {
      StreamedReadsBack(host, file, v, meta, rootName, records, pool, offs, reserved);
    }
  }
}
