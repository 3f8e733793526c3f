/** Laying out a delta: one buffer filled by an advancing cursor. */
module DeltaWriter {
  import opened Words
  import opened Slots
  import opened Bytes
  import opened ChildRows
  import opened Validation
  import opened BaseFormat
  import opened Interning
  import opened BaseImage
  import opened BaseBuffer
  import opened OrderedEncoder
  import opened DeltaFormat
  import opened DeltaImage
  import opened DeltaRoundTrip

  // -- One word at a time -----------------------------------------------------------------

  lemma DeltaElsewhere(b: Text, h: Shape, off: nat, v: U32)
    requires |b| == DeltaLength(h) && off + 4 <= |b|
    ensures off >= HEADER ==> WordsAt(Splice(b, off, LE32(v)), 0, HEAD_WORDS) == WordsAt(b, 0, HEAD_WORDS)
    ensures off + 4 <= HEADER || off >= HEADER + h.n * 24 ==> WordsAt(Splice(b, off, LE32(v)), HEADER, RECORD_WORDS * h.n) == WordsAt(b, HEADER, RECORD_WORDS * h.n)
    ensures off + 4 <= HEADER + h.n * 24 || off >= TailStart(h) ==> Splice(b, off, LE32(v))[HEADER + h.n * 24..TailStart(h)] == b[HEADER + h.n * 24..TailStart(h)]
    ensures off + 4 <= TailStart(h) ==> WordsAt(Splice(b, off, LE32(v)), TailStart(h), h.tail) == WordsAt(b, TailStart(h), h.tail)
  {
    hide WordsAt, LE32;
    WordsApart(b, off, v, 0, HEAD_WORDS);
    WordsApart(b, off, v, HEADER, RECORD_WORDS * h.n);
    WordsApart(b, off, v, TailStart(h), h.tail);
    if off + 4 <= HEADER + h.n * 24 || off >= TailStart(h) {
      SpliceApart(b, off, LE32(v), HEADER + h.n * 24, TailStart(h));
    }
  }

  method PutDeltaHead(b: array<Byte>, ghost h: Shape, k: nat, v: U32)
    requires b.Length == DeltaLength(h) && k < HEAD_WORDS
    modifies b
    ensures DeltaViewOf(b[..], h) == old(DeltaViewOf(b[..], h)).(head := old(DeltaViewOf(b[..], h)).head[k := v])
  {
    hide WordsAt, LE32, Splice;
    WordsPut(b[..], 0, HEAD_WORDS, k, v);
    DeltaElsewhere(b[..], h, 4 * k, v);
    Put32(b, 4 * k, v);
  }

  method PutDeltaHead64(b: array<Byte>, ghost h: Shape, k: nat, v: U64)
    requires b.Length == DeltaLength(h) && k + 1 < HEAD_WORDS
    modifies b
    ensures DeltaViewOf(b[..], h) == old(DeltaViewOf(b[..], h)).(head := With64(old(DeltaViewOf(b[..], h)).head, k, v))
  {
    hide DeltaViewOf;
    PutDeltaHead(b, h, k, v % TWO_TO_THE_32);
    PutDeltaHead(b, h, k + 1, v / TWO_TO_THE_32);
  }

  method PutDeltaRecord(b: array<Byte>, h: Shape, k: nat, v: U32)
    requires b.Length == DeltaLength(h) && k < RECORD_WORDS * h.n
    modifies b
    ensures DeltaViewOf(b[..], h) == old(DeltaViewOf(b[..], h)).(records := old(DeltaViewOf(b[..], h)).records[k := v])
  {
    hide WordsAt, LE32, Splice;
    WordsPut(b[..], HEADER, RECORD_WORDS * h.n, k, v);
    DeltaElsewhere(b[..], h, HEADER + 4 * k, v);
    Put32(b, HEADER + 4 * k, v);
  }

  method PutTail(b: array<Byte>, h: Shape, k: nat, v: U32)
    requires b.Length == DeltaLength(h) && k < h.tail
    modifies b
    ensures DeltaViewOf(b[..], h) == old(DeltaViewOf(b[..], h)).(tail := old(DeltaViewOf(b[..], h)).tail[k := v])
  {
    hide WordsAt, LE32, Splice;
    WordsPut(b[..], TailStart(h), h.tail, k, v);
    DeltaElsewhere(b[..], h, TailStart(h) + 4 * k, v);
    Put32(b, TailStart(h) + 4 * k, v);
  }

  method WriteEntry(b: array<Byte>, h: Shape, i: nat, e: Slot, off: nat)
    requires b.Length == DeltaLength(h) && i < h.n && e.parent < PARENT_LIMIT
    modifies b
    ensures DeltaViewOf(b[..], h) == old(DeltaViewOf(b[..], h)).(records := WithRecord(old(DeltaViewOf(b[..], h)).records, i, e, off))
  {
    hide DeltaViewOf, RecordWord;
    var k := RECORD_WORDS * i;
    PutDeltaRecord(b, h, k, RecordWord(e, off, 0));
    PutDeltaRecord(b, h, k + 1, RecordWord(e, off, 1));
    PutDeltaRecord(b, h, k + 2, RecordWord(e, off, 2));
    PutDeltaRecord(b, h, k + 3, RecordWord(e, off, 3));
    PutDeltaRecord(b, h, k + 4, RecordWord(e, off, 4));
    PutDeltaRecord(b, h, k + 5, RecordWord(e, off, 5));
  }

  lemma PoolView(b: Text, h: Shape, pool: Text)
    requires |b| == DeltaLength(h) && |pool| == h.poolLen
    ensures DeltaViewOf(Splice(b, HEADER + h.n * 24, pool), h) == DeltaViewOf(b, h).(pool := pool)
  {
    hide WordsAt;
    var off := HEADER + h.n * 24;
    var t := Splice(b, off, pool);
    SpliceApart(b, off, pool, 0, 4 * HEAD_WORDS);
    WordsLocal(t, b, 0, HEAD_WORDS);
    SpliceApart(b, off, pool, HEADER, HEADER + 4 * (RECORD_WORDS * h.n));
    WordsLocal(t, b, HEADER, RECORD_WORDS * h.n);
    SpliceApart(b, off, pool, TailStart(h), TailStart(h) + 4 * h.tail);
    WordsLocal(t, b, TailStart(h), h.tail);
    SpliceHere(b, off, pool);
  }

  // -- The tail, word by word ------------------------------------------------------------------

  /** The first c words of the tail are in place. */
  ghost predicate TailTo(w: seq<nat>, full: seq<nat>, c: nat)
  {
    |w| == |full| && c <= |full| && forall m :: 0 <= m < c ==> w[m] == full[m]
  }

  lemma {:induction false} ListTableAppend(a: seq<KidList>, b: seq<KidList>)
    ensures ListTable(a + b) == ListTable(a) + ListTable(b)
  {
    if a == [] {
      assert a + b == b;
    } else {
      assert (a + b)[1..] == a[1..] + b && (a + b)[0] == a[0];
      ListTableAppend(a[1..], b);
    }
  }

  lemma ListTableOne(r: KidList)
    ensures ListTable([r]) == ListWords(r)
  {
    assert ListTable([r]) == ListWords(r) + ListTable([r][1..]);
  }

  lemma {:induction false} ListTableAt(lists: seq<KidList>, i: nat)
    requires i < |lists|
    ensures ListTable(lists[..i + 1]) == ListTable(lists[..i]) + ListWords(lists[i])
    ensures ListTable(lists[..i + 1]) <= ListTable(lists)
  {
    hide ListTable, ListWords;
    var one := [lists[i]];
    assert lists[..i + 1] == lists[..i] + one;
    ListTableAppend(lists[..i], one);
    ListTableOne(lists[i]);
    ListTablePrefix(lists, i + 1);
  }

  lemma {:induction false} ListTablePrefix(lists: seq<KidList>, k: nat)
    requires k <= |lists|
    ensures ListTable(lists[..k]) <= ListTable(lists)
  {
    hide ListTable;
    assert lists == lists[..k] + lists[k..];
    ListTableAppend(lists[..k], lists[k..]);
  }

  /** Every word of a list fits 32 bits. */
  predicate WordsFit(lists: seq<KidList>)
  {
    forall i :: 0 <= i < |lists| ==> |lists[i].kids| <= MAX_U32 && forall k :: 0 <= k < |lists[i].kids| ==> lists[i].kids[k] <= MAX_U32
  }

  lemma {:induction false} NewListsFit(t: Arena, bn: nat)
    requires |t| <= PARENT_LIMIT
    ensures WordsFit(NewLists(t, bn, |t|))
  {
    hide ChildIds, NewLists;
    NewListsAre(t, bn, |t|);
    var lists := NewLists(t, bn, |t|);
    forall i | 0 <= i < |lists| ensures |lists[i].kids| <= MAX_U32 && forall k :: 0 <= k < |lists[i].kids| ==> lists[i].kids[k] <= MAX_U32 {
      AscendingBound(lists[i].kids, |t|);
    }
  }

  method TailLength(lists: seq<KidList>, ids: seq<nat>) returns (n: nat)
    ensures n == PATCH_WORDS * |ids| + |ListTable(lists)|
  {
    hide ListTable;
    n := PATCH_WORDS * |ids|;
    assert |ListTable(lists[..0])| == 0 by { NoLists(lists); }
    for i := 0 to |lists|
      invariant n == PATCH_WORDS * |ids| + |ListTable(lists[..i])|
    {
      ListTableAt(lists, i);
      n := n + 2 + |lists[i].kids|;
    }
    assert lists[..|lists|] == lists;
  }

  lemma NoLists(lists: seq<KidList>)
    ensures |ListTable(lists[..0])| == 0
  {
  }

  /** Writes the patches: each changed id, then its record with the name offset it has in the base. */
  method WritePatches(b: array<Byte>, h: Shape, x: Diff, ghost full: seq<nat>)
    requires Writable(x) && b.Length == DeltaLength(h) && h.tail == |full| && full == TailOf(x)
    modifies b
    ensures DeltaViewOf(b[..], h) == old(DeltaViewOf(b[..], h)).(tail := DeltaViewOf(b[..], h).tail)
    ensures TailTo(DeltaViewOf(b[..], h).tail, full, PATCH_WORDS * |x.ids|)
  {
    hide DeltaViewOf, InternAll, PatchTable, ListTable, RecordWord, TailTo;
    PatchTableLength(x);
    ghost var v0 := DeltaViewOf(b[..], h);
    NoTail(v0.tail, full);
    for j := 0 to |x.ids|
      invariant DeltaViewOf(b[..], h) == v0.(tail := DeltaViewOf(b[..], h).tail)
      invariant TailTo(DeltaViewOf(b[..], h).tail, full, PATCH_WORDS * j)
    {
      WritePatch(b, h, x, j, full);
    }
  }

  lemma NoTail(w: seq<nat>, full: seq<nat>)
    requires |w| == |full|
    ensures TailTo(w, full, 0)
  {
  }

  method WritePatch(b: array<Byte>, h: Shape, x: Diff, j: nat, ghost full: seq<nat>)
    requires Writable(x) && b.Length == DeltaLength(h) && h.tail == |full| && full == TailOf(x) && j < |x.ids|
    requires TailTo(DeltaViewOf(b[..], h).tail, full, PATCH_WORDS * j)
    modifies b
    ensures DeltaViewOf(b[..], h) == old(DeltaViewOf(b[..], h)).(tail := DeltaViewOf(b[..], h).tail)
    ensures TailTo(DeltaViewOf(b[..], h).tail, full, PATCH_WORDS * j + PATCH_WORDS)
  {
    hide DeltaViewOf, InternAll, PatchTable, ListTable, RecordWord, TailOf, TailTo, DeltaPoolOf, ShapeOf;
    PatchTableLength(x);
    PatchWords(x, full, j);
    var id := x.ids[j];
    var at := PATCH_WORDS * j;
    ghost var v0 := DeltaViewOf(b[..], h);
    TailNext(v0.tail, full, at);
    PutTail(b, h, at, id);
    for k := 0 to 6
      invariant DeltaViewOf(b[..], h) == v0.(tail := DeltaViewOf(b[..], h).tail)
      invariant TailTo(DeltaViewOf(b[..], h).tail, full, at + 1 + k)
    {
      assert full[PATCH_WORDS * j + 1 + k] == RecordWord(x.t[id], x.offs[id], k);
      TailNext(DeltaViewOf(b[..], h).tail, full, at + 1 + k);
      PutTail(b, h, at + 1 + k, RecordWord(x.t[id], x.offs[id], k));
    }
  }

  lemma TailNext(w: seq<nat>, full: seq<nat>, c: nat)
    requires TailTo(w, full, c) && c < |full|
    ensures c < |w| && TailTo(w[c := full[c]], full, c + 1)
  {
  }

  /** Writes the child lists after the patches. */
  method WriteLists(b: array<Byte>, h: Shape, lists: seq<KidList>, start: nat, ghost full: seq<nat>)
    requires b.Length == DeltaLength(h) && h.tail == |full| && start <= |full| && full[start..] == ListTable(lists) && WordsFit(lists)
    requires TailTo(DeltaViewOf(b[..], h).tail, full, start)
    modifies b
    ensures DeltaViewOf(b[..], h) == old(DeltaViewOf(b[..], h)).(tail := full)
  {
    hide DeltaViewOf, ListTable, TailTo, ListWords, WordsFit;
    var cursor := start;
    ghost var v0 := DeltaViewOf(b[..], h);
    NoLists(lists);
    for i := 0 to |lists|
      invariant cursor == start + |ListTable(lists[..i])|
      invariant DeltaViewOf(b[..], h) == v0.(tail := DeltaViewOf(b[..], h).tail)
      invariant TailTo(DeltaViewOf(b[..], h).tail, full, cursor)
    {
      ListTableAt(lists, i);
      ListPlace(lists, i, start, full);
      cursor := WriteList(b, h, lists[i], cursor, full);
    }
    assert lists[..|lists|] == lists;
    TailDone(DeltaViewOf(b[..], h).tail, full);
  }

  lemma {:induction false} ListPlace(lists: seq<KidList>, i: nat, start: nat, full: seq<nat>)
    requires i < |lists| && start <= |full| && full[start..] == ListTable(lists) && WordsFit(lists)
    requires ListTable(lists[..i + 1]) == ListTable(lists[..i]) + ListWords(lists[i]) && ListTable(lists[..i + 1]) <= ListTable(lists)
    ensures var at := start + |ListTable(lists[..i])|;
            && at + |ListWords(lists[i])| <= |full|
            && forall k :: 0 <= k < |ListWords(lists[i])| ==> full[at + k] == ListWords(lists[i])[k] <= MAX_U32
    ensures |ListWords(lists[i])| == 2 + |lists[i].kids|
  {
    hide ListTable;
    var at, w := |ListTable(lists[..i])|, ListWords(lists[i]);
    forall k | 0 <= k < |w| ensures full[start + at + k] == w[k] {
      assert full[start..][at + k] == ListTable(lists[..i + 1])[at + k];
    }
    assert WordsFit(lists) ==> |lists[i].kids| <= MAX_U32;
  }

  lemma TailDone(w: seq<nat>, full: seq<nat>)
    requires TailTo(w, full, |full|)
    ensures w == full
  {
  }

  method WriteList(b: array<Byte>, h: Shape, r: KidList, at: nat, ghost full: seq<nat>) returns (cursor: nat)
    requires b.Length == DeltaLength(h) && h.tail == |full| && at + |ListWords(r)| <= |full|
    requires forall k :: 0 <= k < |ListWords(r)| ==> full[at + k] == ListWords(r)[k] <= MAX_U32
    requires TailTo(DeltaViewOf(b[..], h).tail, full, at)
    modifies b
    ensures cursor == at + |ListWords(r)|
    ensures DeltaViewOf(b[..], h) == old(DeltaViewOf(b[..], h)).(tail := DeltaViewOf(b[..], h).tail)
    ensures TailTo(DeltaViewOf(b[..], h).tail, full, cursor)
  {
    hide DeltaViewOf, TailTo;
    ghost var v0 := DeltaViewOf(b[..], h);
    assert ListWords(r)[0] == r.parent && ListWords(r)[1] == |r.kids|;
    assert full[at + 0] == r.parent && full[at + 1] == |r.kids|;
    TailNext(v0.tail, full, at);
    PutTail(b, h, at, r.parent);
    TailNext(DeltaViewOf(b[..], h).tail, full, at + 1);
    PutTail(b, h, at + 1, |r.kids|);
    cursor := at + 2;
    for k := 0 to |r.kids|
      invariant cursor == at + 2 + k
      invariant DeltaViewOf(b[..], h) == v0.(tail := DeltaViewOf(b[..], h).tail)
      invariant TailTo(DeltaViewOf(b[..], h).tail, full, cursor)
    {
      assert full[at + (2 + k)] == ListWords(r)[2 + k] == r.kids[k];
      TailNext(DeltaViewOf(b[..], h).tail, full, cursor);
      PutTail(b, h, cursor, r.kids[k]);
      cursor := cursor + 1;
    }
  }

  // -- The writer --------------------------------------------------------------------------------------

  method WriteEntries(b: array<Byte>, h: Shape, x: Diff, offs: seq<nat>)
    requires Narrow(x.t) && x.bn <= |x.t| && b.Length == DeltaLength(h) && h.n == |x.t| - x.bn == |offs| && Narrow(x.t[x.bn..])
    modifies b
    ensures DeltaViewOf(b[..], h) == old(DeltaViewOf(b[..], h)).(records := RecordTable(x.t[x.bn..], offs))
  {
    hide DeltaViewOf, RecordsTo, WithRecord, RecordTable;
    ghost var v0, c := DeltaViewOf(b[..], h), x.t[x.bn..];
    NoRecords(v0.records, c, offs);
    for i := 0 to |offs|
      invariant RecordsTo(DeltaViewOf(b[..], h).records, c, offs, i)
      invariant DeltaViewOf(b[..], h) == v0.(records := DeltaViewOf(b[..], h).records)
    {
      RecordsNext(DeltaViewOf(b[..], h).records, c, offs, i);
      WriteEntry(b, h, i, x.t[x.bn + i], offs[i]);
    }
    RecordsDone(DeltaViewOf(b[..], h).records, c, offs);
  }

  function WithDeltaCounts(w: seq<U32>, g: Geometry, bodyLen: U64): (r: seq<U32>)
    requires |w| == HEAD_WORDS && g.n <= MAX_U64 && g.poolLen <= MAX_U64 && g.patches <= MAX_U64 && g.lists <= MAX_U64
    ensures |r| == HEAD_WORDS
  {
    With64(With64(With64(With64(With64(w, 15, g.n), 17, g.poolLen), 19, g.patches), 21, g.lists), 23, bodyLen)
  }

  function WithDeltaMeta(w: seq<U32>, baseSum: U64, meta: Meta): (r: seq<U32>)
    requires |w| == HEAD_WORDS
    ensures |r| == HEAD_WORDS
  {
    With64(With64(With64(With64(With64(With64(w[0 := DELTA_MAGIC_LOW][1 := DELTA_MAGIC_HIGH][2 := 1], 3, baseSum), 5, meta.lastEvent),
      7, meta.scannedAt), 9, meta.files), 11, meta.dirs), 13, meta.totalSize)
  }

  lemma DeltaHeadFilled(baseSum: U64, meta: Meta, g: Geometry, bodyLen: U64, sum: U64)
    requires g.n <= MAX_U64 && g.poolLen <= MAX_U64 && g.patches <= MAX_U64 && g.lists <= MAX_U64
    ensures With64(WithDeltaCounts(WithDeltaMeta(NoWords(HEAD_WORDS), baseSum, meta), g, bodyLen), 25, sum)
         == DeltaHead(baseSum, meta, g, bodyLen, sum, NoWords(4))
  {
    HalvesOf(g.n);
    HalvesOf(g.poolLen);
    HalvesOf(g.patches);
    HalvesOf(g.lists);
    var x, y := With64(WithDeltaCounts(WithDeltaMeta(NoWords(HEAD_WORDS), baseSum, meta), g, bodyLen), 25, sum), DeltaHead(baseSum, meta, g, bodyLen, sum, NoWords(4));
    forall k | 0 <= k < HEAD_WORDS ensures x[k] == y[k] {
    }
  }

  lemma HalvesOf(v: U64)
    ensures Low(v) == v % TWO_TO_THE_32 && High(v) == v / TWO_TO_THE_32
  {
  }

  method WriteDeltaHead(b: array<Byte>, ghost h: Shape, baseSum: U64, meta: Meta, g: Geometry, bodyLen: U64)
    requires b.Length == DeltaLength(h) && g.n <= MAX_U64 && g.poolLen <= MAX_U64 && g.patches <= MAX_U64 && g.lists <= MAX_U64
    modifies b
    ensures DeltaViewOf(b[..], h) == old(DeltaViewOf(b[..], h)).(head := WithDeltaCounts(WithDeltaMeta(old(DeltaViewOf(b[..], h)).head, baseSum, meta), g, bodyLen))
  {
    hide DeltaViewOf, With64;
    PutDeltaHead(b, h, 0, DELTA_MAGIC_LOW);
    PutDeltaHead(b, h, 1, DELTA_MAGIC_HIGH);
    PutDeltaHead(b, h, 2, 1);
    PutDeltaHead64(b, h, 3, baseSum);
    PutDeltaHead64(b, h, 5, meta.lastEvent);
    PutDeltaHead64(b, h, 7, meta.scannedAt);
    PutDeltaHead64(b, h, 9, meta.files);
    PutDeltaHead64(b, h, 11, meta.dirs);
    PutDeltaHead64(b, h, 13, meta.totalSize);
    PutDeltaHead64(b, h, 15, g.n);
    PutDeltaHead64(b, h, 17, g.poolLen);
    PutDeltaHead64(b, h, 19, g.patches);
    PutDeltaHead64(b, h, 21, g.lists);
    PutDeltaHead64(b, h, 23, bodyLen);
  }

  lemma ZeroDelta(b: Text, h: Shape)
    requires |b| == DeltaLength(h) && forall i :: 0 <= i < |b| ==> b[i] == 0
    ensures DeltaViewOf(b, h).head == NoWords(HEAD_WORDS)
  {
  }

  lemma DeltaChecksumIgnoresItself(host: Host, b: Text, w: Text)
    requires |b| >= HEADER && |w| == 8
    ensures Checksum(host, Splice(b, 100, w), 100) == Checksum(host, b, 100)
  {
    assert Splice(Splice(b, 100, w), 100, Zeros(8)) == Splice(b, 100, Zeros(8));
  }

  method SealDelta(host: Host, b: array<Byte>, ghost h: Shape)
    requires b.Length == DeltaLength(h)
    modifies b
    ensures DeltaViewOf(b[..], h) == old(DeltaViewOf(b[..], h)).(head := With64(old(DeltaViewOf(b[..], h)).head, 25, Checksum(host, b[..], 100)))
    ensures Checksum(host, b[..], 100) == old(Checksum(host, b[..], 100))
  {
    hide DeltaViewOf, Splice, LE32, Checksum;
    ghost var b0 := b[..];
    var sum := Checksum(host, b[..], 100);
    DeltaHeadPut(b0, h, 25, sum % TWO_TO_THE_32);
    ghost var b1 := Splice(b0, 100, LE32(sum % TWO_TO_THE_32));
    DeltaHeadPut(b1, h, 26, sum / TWO_TO_THE_32);
    Put32(b, 100, sum % TWO_TO_THE_32);
    Put32(b, 104, sum / TWO_TO_THE_32);
    SplicePair(b0, 100, LE32(sum % TWO_TO_THE_32), LE32(sum / TWO_TO_THE_32));
    DeltaChecksumIgnoresItself(host, b0, LE32(sum % TWO_TO_THE_32) + LE32(sum / TWO_TO_THE_32));
  }

  lemma DeltaHeadPut(b: Text, h: Shape, k: nat, v: U32)
    requires |b| == DeltaLength(h) && k < HEAD_WORDS
    ensures DeltaViewOf(Splice(b, 4 * k, LE32(v)), h) == DeltaViewOf(b, h).(head := DeltaViewOf(b, h).head[k := v])
  {
    hide WordsAt, LE32;
    WordsPut(b, 0, HEAD_WORDS, k, v);
    DeltaElsewhere(b, h, 4 * k, v);
  }

  /** Writes the delta of the edits, against the base with this checksum. */
  method WriteDelta(host: Host, x: Diff, baseSum: U64, meta: Meta) returns (b: array<Byte>)
    requires Writable(x) && WordsFit(x.lists)
    ensures fresh(b) && IsDelta(host, b[..], x, baseSum, meta, NoWords(4))
  {
    hide DeltaViewOf, InternAll, PatchTable, ListTable, DeltaHead, RecordTable, WordsFit, WithDeltaCounts, WithDeltaMeta, With64, TailTo;
    AppendedAreNarrow(x);
    var names := ListAppended(x);
    var pool, offs := InternEach(names);
    var tail := TailLength(x.lists, x.ids);
    PatchTableLength(x);
    var h := Shape(|x.t| - x.bn, |pool|, tail);
    var g := Geometry(|x.t| - x.bn, |pool|, |x.ids|, |x.lists|);
    assert h == ShapeOf(x) && g == GeometryOf(x);
    SmallCounts(x);
    b := new Byte[DeltaLength(h)](_ => 0);
    ZeroDelta(b[..], h);
    WriteDeltaHead(b, h, baseSum, meta, g, DeltaLength(h) - HEADER);
    WriteEntries(b, h, x, offs);
    PoolView(b[..], h, pool);
    CopyInto(b, HEADER + h.n * 24, pool);
    ghost var full := TailOf(x);
    WritePatches(b, h, x, full);
    WriteLists(b, h, x.lists, PATCH_WORDS * |x.ids|, full);
    SealDelta(host, b, h);
    DeltaHeadFilled(baseSum, meta, g, DeltaLength(h) - HEADER, Checksum(host, b[..], 100));
  }

  lemma SmallCounts(x: Diff)
    requires Writable(x)
    ensures var g := GeometryOf(x); g.n <= MAX_U64 && g.poolLen <= MAX_U64 && g.patches <= MAX_U64 && g.lists <= MAX_U64
  {
    hide InternAll, PatchTable;
    ListTableLong(x.lists);
  }

  method ListAppended(x: Diff) returns (names: seq<Name>)
    requires Narrow(x.t) && x.bn <= |x.t|
    ensures names == NamesOf(x.t[x.bn..])
  {
    names := [];
    for i := x.bn to |x.t|
      invariant |names| == i - x.bn && forall k :: 0 <= k < |names| ==> names[k] == x.t[x.bn + k].name
    {
      names := names + [x.t[i].name];
    }
  }
}
