/** From raw file records to a tree: the root swap, extension records, and hard-link parents. */
module MftScan {
  import opened Words
  import opened Sums
  import opened Slots
  import opened Ancestors
  import opened Worklist
  import opened Edits
  import opened Links
  import opened ChildRows
  import opened SizeTrees
  import opened HardLinks

  const ROOT_RECORD: nat := 5

  datatype Raw = Raw(used: bool, isDir: bool, baseRecord: U64, parent: U64, name: Name, size: U64, mtime: U64, linkParents: seq<U64>)

  // -- The swap ------------------------------------------------------------------------

  /** Record numbers to slots: the root record and record 0 trade places; a number past the table names no slot. */
  function MapRecord(n: nat, record: nat): (r: U32)
    requires ROOT_RECORD < n <= MAX_U32
  {
    if record >= n then MAX_U32 else if record == ROOT_RECORD then 0 else if record == 0 then ROOT_RECORD else record
  }

  /** Within the table the map is its own inverse; outside it names nothing. */
  lemma MapIsSwap(n: nat, r: nat)
    requires ROOT_RECORD < n <= MAX_U32
    ensures r < n ==> MapRecord(n, r) < n && MapRecord(n, MapRecord(n, r)) == r
    ensures r >= n ==> MapRecord(n, r) >= n
  {
  }

  lemma MapIsInjective(n: nat, r: nat, q: nat)
    requires ROOT_RECORD < n <= MAX_U32 && (r < n || q < n)
    ensures MapRecord(n, r) == MapRecord(n, q) <==> r == q
  {
    MapIsSwap(n, r);
    MapIsSwap(n, q);
  }

  // -- Extension records -------------------------------------------------------------------

  /** A base record whose extensions add to its size. */
  predicate Mergeable(raw: seq<Raw>, b: nat)
  {
    b < |raw| && raw[b].used && !raw[b].isDir && raw[b].baseRecord == 0
  }

  ghost function ExtWeight(raw: seq<Raw>, b: nat): nat -> nat
  {
    (i: nat) => if i < |raw| && raw[i].baseRecord == b && b != 0 && Mergeable(raw, b) then raw[i].size else 0
  }

  /** Every base file's size with its extension records added, whatever order they come in. */
  method MergeExtensions(raw: seq<Raw>) returns (sizes: seq<U64>)
    ensures |sizes| == |raw| && forall b :: 0 <= b < |raw| ==> sizes[b] == Sat(raw[b].size + Sum(|raw|, ExtWeight(raw, b)))
  {
    hide Mergeable, Sum, ExtWeight;
    sizes := seq(|raw|, (i: nat) requires i < |raw| => raw[i].size);
    forall b | 0 <= b < |raw| ensures Sum(0, ExtWeight(raw, b)) == 0 { NoSum(ExtWeight(raw, b)); }
    for i := 0 to |raw|
      invariant |sizes| == |raw| && forall b :: 0 <= b < |raw| ==> sizes[b] == Sat(raw[b].size + Sum(i, ExtWeight(raw, b)))
    {
      var e := raw[i];
      MergeStep(raw, i);
      if e.baseRecord != 0 && e.size != 0 && Mergeable(raw, e.baseRecord) {
        SaturatingAddIsCappedSum(raw[e.baseRecord].size + Sum(i, ExtWeight(raw, e.baseRecord)), e.size);
        sizes := sizes[e.baseRecord := SaturatingAdd(sizes[e.baseRecord], e.size)];
      }
    }
  }

  /** What record i adds to base record b. */
  function ExtShare(raw: seq<Raw>, b: nat, i: nat): nat
    requires i < |raw|
  {
    if raw[i].baseRecord == b && b != 0 && Mergeable(raw, b) then raw[i].size else 0
  }

  lemma NoSum(f: nat -> nat)
    ensures Sum(0, f) == 0
  {
  }

  lemma {:induction false} MergeStep(raw: seq<Raw>, i: nat)
    requires i < |raw|
    ensures Mergeable(raw, raw[i].baseRecord) ==> raw[i].baseRecord < |raw|
    ensures forall b :: 0 <= b < |raw| ==> Sum(i + 1, ExtWeight(raw, b)) == Sum(i, ExtWeight(raw, b)) + ExtShare(raw, b, i)
  {
  }

  // -- Slots ------------------------------------------------------------------------------------

  function MftSlot(raw: seq<Raw>, sizes: seq<U64>, i: nat): Slot
    requires ROOT_RECORD < |raw| <= MAX_U32 && |sizes| == |raw| && i < |raw|
  {
    var e := raw[i];
    Slot(if i == ROOT_RECORD then 0 else MapRecord(|raw|, e.parent), e.name, e.isDir, sizes[i], e.used && e.baseRecord == 0, e.mtime, 0)
  }

  function MftSlots(raw: seq<Raw>, sizes: seq<U64>): (s: Arena)
    requires ROOT_RECORD < |raw| <= MAX_U32 && |sizes| == |raw|
    ensures |s| == |raw|
    ensures forall j :: 0 <= j < |s| ==> s[j] == MftSlot(raw, sizes, MapRecord(|raw|, j))
  {
    seq(|raw|, (j: nat) requires j < |raw| => MftSlot(raw, sizes, MapRecord(|raw|, j)))
  }

  /** The slot of a record keeps its parent edge: slots are linked exactly as their records are. */
  lemma SwapKeepsEdges(raw: seq<Raw>, sizes: seq<U64>, i: nat, p: nat)
    requires ROOT_RECORD < |raw| <= MAX_U32 && |sizes| == |raw| && i < |raw| && p < |raw| && i != ROOT_RECORD
    ensures MapRecord(|raw|, i) < |raw| && (MftSlots(raw, sizes)[MapRecord(|raw|, i)].parent == MapRecord(|raw|, p) <==> raw[i].parent == p)
  {
    MapIsSwap(|raw|, i);
    MapIsInjective(|raw|, raw[i].parent, p);
  }

  datatype Counts = Counts(dirs: nat, files: nat, bytes: U64)

  /** Places every record in its slot and counts what is live. */
  method PlaceRecords(raw: seq<Raw>, sizes: seq<U64>) returns (entries: Arena, counts: Counts)
    requires ROOT_RECORD < |raw| <= MAX_U32 && |sizes| == |raw|
    ensures entries == MftSlots(raw, sizes)
    ensures counts.dirs == Sum(|raw|, RecordKind(raw, true)) && counts.files == Sum(|raw|, RecordKind(raw, false))
    ensures counts.bytes == Sat(Sum(|raw|, RecordBytes(raw, sizes)))
  {
    entries := seq(|raw|, _ => Slot(0, [], false, 0, false, 0, 0));
    counts := Counts(0, 0, 0);
    for i := 0 to |raw|
      invariant |entries| == |raw|
      invariant forall k :: 0 <= k < i ==> MapRecord(|raw|, k) < |raw| && entries[MapRecord(|raw|, k)] == MftSlot(raw, sizes, k).(parent := MapRecord(|raw|, raw[k].parent))
      invariant CountsTo(raw, sizes, i, counts)
    {
      var e := raw[i];
      MapIsSwap(|raw|, i);
      forall k | 0 <= k < i ensures MapRecord(|raw|, k) != MapRecord(|raw|, i) { MapIsInjective(|raw|, k, i); }
      entries := entries[MapRecord(|raw|, i) := Slot(MapRecord(|raw|, e.parent), e.name, e.isDir, sizes[i], e.used && e.baseRecord == 0, e.mtime, 0)];
      TallyNext(raw, sizes, i, counts);
      counts := Tallied(raw, sizes, i, counts);
    }
    PlacedAll(raw, sizes, entries);
    entries := entries[0 := entries[0].(parent := 0)];
  }

  lemma PlacedAll(raw: seq<Raw>, sizes: seq<U64>, entries: Arena)
    requires ROOT_RECORD < |raw| <= MAX_U32 && |sizes| == |raw| == |entries|
    requires forall k :: 0 <= k < |raw| ==> MapRecord(|raw|, k) < |raw| && entries[MapRecord(|raw|, k)] == MftSlot(raw, sizes, k).(parent := MapRecord(|raw|, raw[k].parent))
    ensures entries[0 := entries[0].(parent := 0)] == MftSlots(raw, sizes)
  {
    var t := entries[0 := entries[0].(parent := 0)];
    forall j: nat | j < |raw| ensures t[j] == MftSlots(raw, sizes)[j] {
      MapIsSwap(|raw|, j);
      var k := MapRecord(|raw|, j);
      assert entries[MapRecord(|raw|, k)] == MftSlot(raw, sizes, k).(parent := MapRecord(|raw|, raw[k].parent));
    }
  }

  /** Counts of one more record. */
  function Tallied(raw: seq<Raw>, sizes: seq<U64>, i: nat, counts: Counts): Counts
    requires i < |raw| == |sizes|
  {
    var e := raw[i];
    if !e.used || e.baseRecord != 0 then counts
    else if e.isDir then counts.(dirs := counts.dirs + 1)
    else counts.(bytes := SaturatingAdd(counts.bytes, sizes[i]), files := counts.files + 1)
  }

  ghost predicate CountsTo(raw: seq<Raw>, sizes: seq<U64>, i: nat, counts: Counts)
  {
    && counts.dirs == Sum(i, RecordKind(raw, true)) && counts.files == Sum(i, RecordKind(raw, false))
    && counts.bytes == Sat(Sum(i, RecordBytes(raw, sizes)))
  }

  lemma TallyNext(raw: seq<Raw>, sizes: seq<U64>, i: nat, counts: Counts)
    requires i < |raw| == |sizes| && CountsTo(raw, sizes, i, counts)
    ensures CountsTo(raw, sizes, i + 1, Tallied(raw, sizes, i, counts))
  {
    SaturatingAddIsCappedSum(Sum(i, RecordBytes(raw, sizes)), sizes[i]);
  }

  ghost function RecordKind(raw: seq<Raw>, directory: bool): nat -> nat
  {
    (i: nat) => if i < |raw| && raw[i].used && raw[i].baseRecord == 0 && raw[i].isDir == directory then 1 else 0
  }

  ghost function RecordBytes(raw: seq<Raw>, sizes: seq<U64>): nat -> nat
  {
    (i: nat) => if i < |raw| == |sizes| && raw[i].used && raw[i].baseRecord == 0 && !raw[i].isDir then sizes[i] else 0
  }

  // -- Hard-link parents --------------------------------------------------------------------------

  /** The live base file record i belongs to. */
  function Owner(raw: seq<Raw>, i: nat): Option<nat>
    requires i < |raw|
  {
    var record: nat := if raw[i].baseRecord != 0 then raw[i].baseRecord else i;
    if record < |raw| && raw[record].used && !raw[record].isDir && raw[record].baseRecord == 0 then Some(record) else None
  }

  /** Extra (file record, parent record) pairs, each kept at its first appearance. */
  type Pair = (nat, nat)

  function AddPairs(raw: seq<Raw>, pairs: seq<Pair>, record: nat, parents: seq<U64>): seq<Pair>
    requires record < |raw|
  {
    if parents == [] then pairs else
      var r, p := AddPairs(raw, pairs, record, parents[..|parents| - 1]), parents[|parents| - 1];
      if p == raw[record].parent || (record, p as nat) in r then r else r + [(record, p as nat)]
  }

  function PairsTo(raw: seq<Raw>, n: nat): seq<Pair>
    requires n <= |raw|
  {
    if n == 0 then [] else
      match Owner(raw, n - 1)
      case None => PairsTo(raw, n - 1)
      case Some(record) => AddPairs(raw, PairsTo(raw, n - 1), record, raw[n - 1].linkParents)
  }

  ghost predicate NoRepeats(pairs: seq<Pair>)
  {
    forall a, b :: 0 <= a < b < |pairs| ==> pairs[a] != pairs[b]
  }

  lemma {:induction false} AddPairsMembers(raw: seq<Raw>, pairs: seq<Pair>, record: nat, parents: seq<U64>, x: Pair)
    requires record < |raw|
    ensures x in AddPairs(raw, pairs, record, parents) <==> x in pairs || (x.0 == record && x.1 in parents && x.1 != raw[record].parent)
    ensures NoRepeats(pairs) ==> NoRepeats(AddPairs(raw, pairs, record, parents))
  {
    if parents != [] {
      var front, p := parents[..|parents| - 1], parents[|parents| - 1];
      assert parents == front + [p];
      AddPairsMembers(raw, pairs, record, front, x);
    }
  }

  /** A pair is kept exactly when some record of the file names that parent and it is not the file's own; never twice. */
  lemma {:induction false} PairsAreExact(raw: seq<Raw>, n: nat, x: Pair)
    requires n <= |raw|
    ensures x in PairsTo(raw, n) <==> exists i :: 0 <= i < n && Owner(raw, i) == Some(x.0) && x.1 in raw[i].linkParents && x.1 != raw[x.0].parent
    ensures NoRepeats(PairsTo(raw, n))
  {
    if n > 0 {
      PairsAreExact(raw, n - 1, x);
      if Owner(raw, n - 1).Some? {
        AddPairsMembers(raw, PairsTo(raw, n - 1), Owner(raw, n - 1).value, raw[n - 1].linkParents, x);
      }
    }
  }

  function LinkOf(raw: seq<Raw>, sizes: seq<U64>, x: Pair): Link
    requires ROOT_RECORD < |raw| <= MAX_U32 && |sizes| == |raw| && x.0 < |raw|
  {
    Link(MapRecord(|raw|, x.0), MapRecord(|raw|, x.1), sizes[x.0])
  }

  /** One more file of this size seen here; the count wraps, as an increment does. */
  function Bump(size: U64): Slot -> Slot
  {
    (e: Slot) => e.(size := SaturatingAdd(e.size, size), files := if e.files == MAX_U64 then 0 else e.files + 1)
  }

  // -- The build ----------------------------------------------------------------------------------------

  function LinksFrom(raw: seq<Raw>, sizes: seq<U64>, pairs: seq<Pair>): (r: seq<Link>)
    requires ROOT_RECORD < |raw| <= MAX_U32 && |sizes| == |raw| && forall k :: 0 <= k < |pairs| ==> pairs[k].0 < |raw|
    ensures |r| == |pairs| && forall k :: 0 <= k < |pairs| ==> r[k] == LinkOf(raw, sizes, pairs[k])
  {
    seq(|pairs|, (k: nat) requires k < |pairs| => LinkOf(raw, sizes, pairs[k]))
  }

  /** Pairs of live base files and parents that are not their own, none twice. */
  ghost predicate GoodPairs(raw: seq<Raw>, pairs: seq<Pair>)
  {
    && NoRepeats(pairs)
    && forall k :: 0 <= k < |pairs| ==> Mergeable(raw, pairs[k].0) && pairs[k].1 != raw[pairs[k].0].parent
  }

  /** Every recorded parent belongs to a pair. */
  ghost predicate FromPairs(raw: seq<Raw>, pairs: seq<Pair>, extra: map<nat, seq<nat>>)
    requires ROOT_RECORD < |raw| <= MAX_U32
  {
    forall f: nat, q: nat :: q in ExtrasOf(extra, f) ==>
      exists k :: 0 <= k < |pairs| && MapRecord(|raw|, pairs[k].0) == f && MapRecord(|raw|, pairs[k].1) == q && pairs[k].1 < |raw|
  }

  /** The link loop so far. */
  ghost predicate Linking(raw: seq<Raw>, sizes: seq<U64>, pairs: seq<Pair>, slots: Arena, extra: map<nat, seq<nat>>)
  {
    && ROOT_RECORD < |raw| <= MAX_U32 && |sizes| == |raw| && raw[ROOT_RECORD].isDir && GoodPairs(raw, pairs) && FromPairs(raw, pairs, extra)
    && slots == Linked(MftSlots(raw, sizes), LinksFrom(raw, sizes, pairs))
    && Recorded(MftSlots(raw, sizes), LinksFrom(raw, sizes, pairs), extra)
  }

  lemma LinkingStarts(raw: seq<Raw>, sizes: seq<U64>)
    requires ROOT_RECORD < |raw| <= MAX_U32 && |sizes| == |raw| && raw[ROOT_RECORD].isDir
    ensures Linking(raw, sizes, [], RollUp(MftSlots(raw, sizes)), map[])
  {
    hide RollUp;
    NothingReplayed(MftSlots(raw, sizes), |raw|);
  }

  lemma LinkedShape(s: Arena, links: seq<Link>)
    ensures SameShape(s, Linked(s, links))
  {
    hide RollUp, WalkEach;
    RollUpIsButTotals(s);
    ButTotalsIsShape(s, RollUp(s));
    WalksAdd(RollUp(s), links);
  }

  /** Walks that meet directories only leave every file's size alone. */
  lemma LinkedFiles(s: Arena, links: seq<Link>)
    requires DirsOnly(s, links)
    ensures SameButTotals(s, Linked(s, links))
  {
    hide RollUp, WalkEach, DirsOnly, Gain, Visits;
    RollUpIsButTotals(s);
    ButTotalsIsShape(s, RollUp(s));
    DirsOnlyAlike(s, RollUp(s), links);
    WalksKeepFiles(RollUp(s), links);
    WalksAdd(RollUp(s), links);
    StillButTotals(s, RollUp(s), WalkEach(RollUp(s), links));
  }

  /** The slot a record is kept in: record 5 and record 0 trade places. */
  function Seat(i: nat): nat
  {
    if i == 5 then 0 else if i == 0 then 5 else i
  }

  /**
   * What a record says is what its slot says, whatever totals are rolled up: the root record is the root, a base record in
   * use is a live node under the slot of its parent, and a file that no link is walked through has its own size with its
   * extensions'.
   */
  lemma {:induction false} SlotsAreRecords(raw: seq<Raw>, sizes: seq<U64>, pairs: seq<Pair>, slots: Arena, extra: map<nat, seq<nat>>, i: nat)
    requires Linking(raw, sizes, pairs, slots, extra) && i < |raw|
    ensures |slots| == |sizes| == |raw| > Seat(i)
    ensures var e := slots[Seat(i)];
      && e.name == raw[i].name && e.isDir == raw[i].isDir && e.mtime == raw[i].mtime && (e.used <==> raw[i].used && raw[i].baseRecord == 0)
      && (!raw[i].isDir && DirsOnly(MftSlots(raw, sizes), LinksFrom(raw, sizes, pairs)) ==> e.size == sizes[i])
      && (i == 5 ==> e.parent == 0) && (i != 5 && raw[i].parent < |raw| ==> e.parent == Seat(raw[i].parent)) && (i != 5 && raw[i].parent >= |raw| ==> e.parent >= |slots|)
  {
    hide Linked, Recorded, FromPairs, NoRepeats, RollUp, WalkEach;
    var s := MftSlots(raw, sizes);
    var links := LinksFrom(raw, sizes, pairs);
    LinkedShape(s, links);
    if DirsOnly(s, links) { LinkedFiles(s, links); }
    MapIsSwap(|raw|, i);
    assert s[Seat(i)] == MftSlot(raw, sizes, i);
  }

  /** A new pair is a link the tree records if its parent is live. */
  lemma NewPair(raw: seq<Raw>, sizes: seq<U64>, pairs: seq<Pair>, slots: Arena, extra: map<nat, seq<nat>>, x: Pair)
    requires Linking(raw, sizes, pairs, slots, extra) && Mergeable(raw, x.0) && x.1 != raw[x.0].parent && x !in pairs
    ensures IsFile(MftSlots(raw, sizes), LinkOf(raw, sizes, x).file) && sizes[x.0] == MftSlots(raw, sizes)[LinkOf(raw, sizes, x).file].size
    ensures Valid(MftSlots(raw, sizes), LinkOf(raw, sizes, x).parent) ==>
              LinkOf(raw, sizes, x).parent != MftSlots(raw, sizes)[LinkOf(raw, sizes, x).file].parent && LinkOf(raw, sizes, x).parent !in ExtrasOf(extra, LinkOf(raw, sizes, x).file)
  {
    hide Linked, Recorded;
    var l := LinkOf(raw, sizes, x);
    var s := MftSlots(raw, sizes);
    MapIsSwap(|raw|, x.0);
    MapIsSwap(|raw|, x.1);
    assert MapRecord(|raw|, l.file) == x.0;
    if Valid(s, l.parent) {
      MapIsInjective(|raw|, x.1, raw[x.0].parent);
      forall k | 0 <= k < |pairs| ensures !(MapRecord(|raw|, pairs[k].0) == l.file && MapRecord(|raw|, pairs[k].1) == l.parent && pairs[k].1 < |raw|) {
        MapIsInjective(|raw|, x.0, pairs[k].0);
        MapIsInjective(|raw|, x.1, pairs[k].1);
        assert pairs[k] != x;
      }
    }
  }

  lemma BumpIsAdd(size: U64, e: Slot)
    requires e.files < MAX_U64
    ensures Bump(size)(e) == AddTotals(size, 1)(e)
  {
  }

  lemma BumpTouches(t: Arena, p: nat, size: U64)
    requires forall d :: 0 <= d < |t| ==> t[d].files < MAX_U64
    ensures Touch(t, Chain(t, p), Bump(size)) == WalkFrom(t, p, size)
  {
    hide Climb, Chain;
    forall d | 0 <= d < |t| ensures Bump(size)(t[d]) == AddTotals(size, 1)(t[d]) { BumpIsAdd(size, t[d]); }
  }

  /** Counts cannot reach the top of the range while there are fewer than 2^32 - 1 links. */
  lemma CountsHaveRoom(raw: seq<Raw>, sizes: seq<U64>, pairs: seq<Pair>, slots: Arena, extra: map<nat, seq<nat>>)
    requires Linking(raw, sizes, pairs, slots, extra) && |pairs| < MAX_U32
    ensures forall d :: 0 <= d < |slots| ==> slots[d].files < MAX_U64
  {
    hide Linked, Recorded, FromPairs, NoRepeats, Replayed, LinksFrom;
    var s := MftSlots(raw, sizes);
    var links := LinksFrom(raw, sizes, pairs);
    LinksFromSize(raw, sizes, pairs);
    forall d | 0 <= d < |slots| ensures slots[d].files < MAX_U64 {
      LinkedCount(s, links, d);
    }
  }

  lemma LinksFromSize(raw: seq<Raw>, sizes: seq<U64>, pairs: seq<Pair>)
    requires ROOT_RECORD < |raw| <= MAX_U32 && |sizes| == |raw| && forall k :: 0 <= k < |pairs| ==> pairs[k].0 < |raw|
    ensures |LinksFrom(raw, sizes, pairs)| == |pairs|
  {
  }

  lemma LinkedCount(s: Arena, links: seq<Link>, d: nat)
    requires d < |s| <= MAX_U32 && s[d].files == 0 && |links| < MAX_U32
    ensures Linked(s, links)[d].files < MAX_U64
  {
    hide RollUp, WalkEach, Gain, Visits;
    WalksAdd(RollUp(s), links);
    RolledCountBounded(s, d);
    VisitsBounded(RollUp(s), links, d);
  }

  lemma LinkingNext(raw: seq<Raw>, sizes: seq<U64>, pairs: seq<Pair>, slots: Arena, extra: map<nat, seq<nat>>, x: Pair)
    requires Linking(raw, sizes, pairs, slots, extra) && Mergeable(raw, x.0) && x.1 != raw[x.0].parent && x !in pairs
    ensures var l := LinkOf(raw, sizes, x);
            Linking(raw, sizes, pairs + [x], WalkFrom(slots, l.parent, l.size),
                    if Valid(slots, l.parent) then extra[l.file := ExtrasOf(extra, l.file) + [l.parent]] else extra)
  {
    hide RollUp, WalkFrom, Recorded, Replayed, Linked, LinksFrom, FromPairs;
    var l := LinkOf(raw, sizes, x);
    NewPair(raw, sizes, pairs, slots, extra, x);
    MorePairs(raw, pairs, x);
    LinkedNext(raw, sizes, pairs, x);
    LinkedShape(MftSlots(raw, sizes), LinksFrom(raw, sizes, pairs));
    RecordedNext(MftSlots(raw, sizes), LinksFrom(raw, sizes, pairs), extra, l);
    FromPairsNext(raw, pairs, extra, x, l.file, l.parent);
    FromPairsMore(raw, pairs, extra, x);
  }

  lemma MorePairs(raw: seq<Raw>, pairs: seq<Pair>, x: Pair)
    requires GoodPairs(raw, pairs) && Mergeable(raw, x.0) && x.1 != raw[x.0].parent && x !in pairs
    ensures GoodPairs(raw, pairs + [x])
  {
  }

  lemma LinkedNext(raw: seq<Raw>, sizes: seq<U64>, pairs: seq<Pair>, x: Pair)
    requires ROOT_RECORD < |raw| <= MAX_U32 && |sizes| == |raw| && GoodPairs(raw, pairs) && Mergeable(raw, x.0)
    ensures forall k :: 0 <= k < |pairs| ==> pairs[k].0 < |raw|
    ensures LinksFrom(raw, sizes, pairs + [x]) == LinksFrom(raw, sizes, pairs) + [LinkOf(raw, sizes, x)]
    ensures Linked(MftSlots(raw, sizes), LinksFrom(raw, sizes, pairs + [x]))
         == WalkFrom(Linked(MftSlots(raw, sizes), LinksFrom(raw, sizes, pairs)), LinkOf(raw, sizes, x).parent, LinkOf(raw, sizes, x).size)
  {
    hide RollUp, WalkFrom, MftSlots;
    var links, l := LinksFrom(raw, sizes, pairs), LinkOf(raw, sizes, x);
    assert LinksFrom(raw, sizes, pairs + [x]) == links + [l];
    assert (links + [l])[..|links|] == links;
  }

  lemma FromPairsMore(raw: seq<Raw>, pairs: seq<Pair>, extra: map<nat, seq<nat>>, x: Pair)
    requires ROOT_RECORD < |raw| <= MAX_U32 && FromPairs(raw, pairs, extra)
    ensures FromPairs(raw, pairs + [x], extra)
  {
    forall f: nat, q: nat | q in ExtrasOf(extra, f)
      ensures exists k :: 0 <= k < |pairs + [x]| && MapRecord(|raw|, (pairs + [x])[k].0) == f && MapRecord(|raw|, (pairs + [x])[k].1) == q && (pairs + [x])[k].1 < |raw|
    {
      PairBehind(raw, pairs, extra, x, MapRecord(|raw|, x.0), MapRecord(|raw|, x.1), f, q);
    }
  }

  lemma FromPairsNext(raw: seq<Raw>, pairs: seq<Pair>, extra: map<nat, seq<nat>>, x: Pair, file: nat, parent: nat)
    requires ROOT_RECORD < |raw| <= MAX_U32 && FromPairs(raw, pairs, extra) && file == MapRecord(|raw|, x.0) && parent == MapRecord(|raw|, x.1)
    ensures parent < |raw| ==> FromPairs(raw, pairs + [x], extra[file := ExtrasOf(extra, file) + [parent]])
  {
    if parent < |raw| {
      var extra' := extra[file := ExtrasOf(extra, file) + [parent]];
      forall f: nat, q: nat | q in ExtrasOf(extra', f)
        ensures exists k :: 0 <= k < |pairs + [x]| && MapRecord(|raw|, (pairs + [x])[k].0) == f && MapRecord(|raw|, (pairs + [x])[k].1) == q && (pairs + [x])[k].1 < |raw|
      {
        PairBehind(raw, pairs, extra, x, file, parent, f, q);
      }
    }
  }

  lemma PairBehind(raw: seq<Raw>, pairs: seq<Pair>, extra: map<nat, seq<nat>>, x: Pair, file: nat, parent: nat, f: nat, q: nat)
    requires ROOT_RECORD < |raw| <= MAX_U32 && FromPairs(raw, pairs, extra) && file == MapRecord(|raw|, x.0) && parent == MapRecord(|raw|, x.1)
    requires q in ExtrasOf(extra, f) || (f == file && q == parent && parent < |raw|)
    ensures exists k :: 0 <= k < |pairs + [x]| && MapRecord(|raw|, (pairs + [x])[k].0) == f && MapRecord(|raw|, (pairs + [x])[k].1) == q && (pairs + [x])[k].1 < |raw|
  {
    if q in ExtrasOf(extra, f) {
      var k :| 0 <= k < |pairs| && MapRecord(|raw|, pairs[k].0) == f && MapRecord(|raw|, pairs[k].1) == q && pairs[k].1 < |raw|;
      assert (pairs + [x])[k] == pairs[k];
    } else {
      MapIsSwap(|raw|, x.1);
      assert (pairs + [x])[|pairs|] == x;
    }
  }

  // -- The loop ---------------------------------------------------------------------------------------------

  function TotalParents(raw: seq<Raw>, n: nat): nat
    requires n <= |raw|
  {
    if n == 0 then 0 else TotalParents(raw, n - 1) + |raw[n - 1].linkParents|
  }

  lemma {:induction false} AddPairsGood(raw: seq<Raw>, pairs: seq<Pair>, record: nat, parents: seq<U64>)
    requires GoodPairs(raw, pairs) && Mergeable(raw, record)
    ensures GoodPairs(raw, AddPairs(raw, pairs, record, parents)) && |AddPairs(raw, pairs, record, parents)| <= |pairs| + |parents|
  {
    if parents != [] { AddPairsGood(raw, pairs, record, parents[..|parents| - 1]); }
  }

  lemma {:induction false} TotalParentsGrow(raw: seq<Raw>, n: nat, m: nat)
    requires n <= m <= |raw|
    ensures TotalParents(raw, n) <= TotalParents(raw, m)
  {
    if n < m { TotalParentsGrow(raw, n, m - 1); }
  }

  /** Records one extra parent: noted on the tree, and walked. */
  method AddExtra(t: SizeTree, raw: seq<Raw>, sizes: seq<U64>, ghost pairs: seq<Pair>, x: Pair)
    requires TreeAt(t, raw, sizes, pairs) && |pairs| < MAX_U32 && |sizes| == |raw| && ROOT_RECORD < |raw| <= MAX_U32
    requires Mergeable(raw, x.0) && x.1 != raw[x.0].parent && x !in pairs
    modifies t
    ensures TreeAt(t, raw, sizes, pairs + [x])
  {
    hide Linking, Climb, Chain, Touch, WalkFrom, RowsFit;
    ghost var slots, extra := t.Slots(), t.extraParents;
    LinkingNext(raw, sizes, pairs, slots, extra, x);
    CountsHaveRoom(raw, sizes, pairs, slots, extra);
    NoteDecides(raw, sizes, pairs, slots, extra, x);
    t.NoteExtraParent(MapRecord(|raw|, x.0), MapRecord(|raw|, x.1));
    BumpTouches(slots, MapRecord(|raw|, x.1), sizes[x.0]);
    t.Walk(MapRecord(|raw|, x.1), Bump(sizes[x.0]));
  }

  /** The tree notes the parent exactly when it is live. */
  lemma NoteDecides(raw: seq<Raw>, sizes: seq<U64>, pairs: seq<Pair>, slots: Arena, extra: map<nat, seq<nat>>, x: Pair)
    requires Linking(raw, sizes, pairs, slots, extra) && Mergeable(raw, x.0) && x.1 != raw[x.0].parent && x !in pairs
    ensures ROOT_RECORD < |raw| <= MAX_U32 && |sizes| == |raw| && x.0 < |raw|
    ensures var l := LinkOf(raw, sizes, x);
            && Valid(slots, l.file) && !slots[l.file].isDir
            && (Valid(slots, l.parent) ==> slots[l.file].parent != l.parent && l.parent !in ExtrasOf(extra, l.file))
  {
    hide Linked, Recorded, FromPairs, NoRepeats;
    NewPair(raw, sizes, pairs, slots, extra, x);
    LinkedShape(MftSlots(raw, sizes), LinksFrom(raw, sizes, pairs));
  }

  /** The tree after the pairs so far. */
  ghost predicate TreeAt(t: SizeTree, raw: seq<Raw>, sizes: seq<U64>, pairs: seq<Pair>)
    reads t
  {
    t.Ok() && t.base.None? && Linking(raw, sizes, pairs, t.Slots(), t.extraParents)
  }

  /** What a scan reports: links besides the selected names, and bytes and files counting each of them. */
  datatype Totals = Totals(hardLinks: nat, bytes: U64, files: nat)

  /** The bytes the pairs count again. */
  ghost function PairBytes(sizes: seq<U64>, pairs: seq<Pair>): (n: nat)
    decreases |pairs|
  {
    if pairs == [] then 0
    else
      var x := pairs[|pairs| - 1];
      PairBytes(sizes, pairs[..|pairs| - 1]) + if x.0 < |sizes| then sizes[x.0] else 0
  }

  /** Totals over live files adding up to these bytes and this many files, once the pairs are counted too. */
  ghost predicate Reported(totals: Totals, sizes: seq<U64>, bytes: nat, files: nat, pairs: seq<Pair>)
  {
    totals == Totals(|pairs|, Sat(bytes + PairBytes(sizes, pairs)), files + |pairs|)
  }

  lemma ReportedNext(totals: Totals, sizes: seq<U64>, bytes: nat, files: nat, pairs: seq<Pair>, x: Pair)
    requires Reported(totals, sizes, bytes, files, pairs) && x.0 < |sizes|
    ensures Reported(Totals(totals.hardLinks + 1, SaturatingAdd(totals.bytes, sizes[x.0]), totals.files + 1), sizes, bytes, files, pairs + [x])
  {
    assert (pairs + [x])[..|pairs|] == pairs;
    SaturatingAddIsCappedSum(bytes + PairBytes(sizes, pairs), sizes[x.0]);
  }

  method LinkRecord(t: SizeTree, raw: seq<Raw>, sizes: seq<U64>, seen: seq<Pair>, record: nat, parents: seq<U64>, before: Totals, ghost bytes: nat, ghost files: nat)
    returns (pairs: seq<Pair>, totals: Totals)
    requires TreeAt(t, raw, sizes, seen) && Mergeable(raw, record) && |seen| + |parents| < MAX_U32 && |sizes| == |raw| && ROOT_RECORD < |raw| <= MAX_U32
    requires Reported(before, sizes, bytes, files, seen)
    modifies t
    ensures TreeAt(t, raw, sizes, pairs) && pairs == AddPairs(raw, seen, record, parents) && |pairs| <= |seen| + |parents|
    ensures Reported(totals, sizes, bytes, files, pairs)
  {
    hide TreeAt, Reported;
    pairs, totals := seen, before;
    for j := 0 to |parents|
      invariant Reported(totals, sizes, bytes, files, pairs)
      invariant TreeAt(t, raw, sizes, pairs) && pairs == AddPairs(raw, seen, record, parents[..j]) && |pairs| <= |seen| + j
    {
      assert parents[..j + 1][..j] == parents[..j];
      var x: Pair := (record, parents[j]);
      if parents[j] != raw[record].parent && x !in pairs {
        AddExtra(t, raw, sizes, pairs, x);
        ReportedNext(totals, sizes, bytes, files, pairs, x);
        totals := Totals(totals.hardLinks + 1, SaturatingAdd(totals.bytes, sizes[record]), totals.files + 1);
        pairs := pairs + [x];
      }
    }
    assert parents[..|parents|] == parents;
  }

  method RolledTree(fold: Fold, mount: seq<Name>, raw: seq<Raw>, sizes: seq<U64>, entries: Arena, volumeLabel: Name) returns (t: SizeTree)
    requires ROOT_RECORD < |raw| <= MAX_U32 && |sizes| == |raw| && raw[ROOT_RECORD].isDir && entries == MftSlots(raw, sizes)
    ensures fresh(t) && TreeAt(t, raw, sizes, [])
  {
    hide Linking, RollUp, MftSlots;
    t := NewSizeTree(fold, mount, entries, volumeLabel);
    LinkingStarts(raw, sizes);
  }

  /** Builds the tree of a scan. Its totals are the files rolled up and every extra link walked once, and the links are recorded for later recomputations. */
  method BuildMftTree(fold: Fold, mount: seq<Name>, raw: seq<Raw>, volumeLabel: Name) returns (ok: bool, t: SizeTree?, sizes: seq<U64>, pairs: seq<Pair>, totals: Totals)
    requires TotalParents(raw, |raw|) < MAX_U32
    ensures ok <==> ROOT_RECORD < |raw| <= MAX_U32 && raw[ROOT_RECORD].used && raw[ROOT_RECORD].isDir
    ensures ok ==> t != null && fresh(t) && TreeAt(t, raw, sizes, pairs) && |sizes| == |raw| && pairs == PairsTo(raw, |raw|)
    ensures ok ==> forall b :: 0 <= b < |raw| ==> sizes[b] == Sat(raw[b].size + Sum(|raw|, ExtWeight(raw, b)))
    ensures ok ==> Reported(totals, sizes, Sum(|raw|, RecordBytes(raw, sizes)), Sum(|raw|, RecordKind(raw, false)), pairs)
  {
    hide TreeAt, Mergeable, ExtWeight, Sum, MftSlots, Reported, RecordBytes, RecordKind;
    sizes, pairs, t, totals := [], [], null, Totals(0, 0, 0);
    if |raw| > MAX_U32 || |raw| <= ROOT_RECORD || !raw[ROOT_RECORD].used || !raw[ROOT_RECORD].isDir {
      return false, null, sizes, pairs, totals;
    }
    ok := true;
    sizes := MergeExtensions(raw);
    var entries, counts := PlaceRecords(raw, sizes);
    totals := Totals(0, counts.bytes, counts.files);
    ghost var bytes, files := Sum(|raw|, RecordBytes(raw, sizes)), Sum(|raw|, RecordKind(raw, false));
    ReportedFirst(totals, sizes, bytes, files);
    t := RolledTree(fold, mount, raw, sizes, entries, volumeLabel);
    for i := 0 to |raw|
      invariant Reported(totals, sizes, bytes, files, pairs)
      invariant fresh(t) && TreeAt(t, raw, sizes, pairs) && pairs == PairsTo(raw, i) && |pairs| <= TotalParents(raw, i)
    {
      TotalParentsGrow(raw, i + 1, |raw|);
      var owner := Owner(raw, i);
      if owner.Some? {
        OwnerMerges(raw, i);
        pairs, totals := LinkRecord(t, raw, sizes, pairs, owner.value, raw[i].linkParents, totals, bytes, files);
      }
    }
  }

  lemma ReportedFirst(totals: Totals, sizes: seq<U64>, bytes: nat, files: nat)
    requires totals == Totals(0, Sat(bytes), files)
    ensures Reported(totals, sizes, bytes, files, [])
  {
  }

  lemma OwnerMerges(raw: seq<Raw>, i: nat)
    requires i < |raw| && Owner(raw, i).Some?
    ensures Mergeable(raw, Owner(raw, i).value)
  {
  }

  /** After a build, recomputing leaves every total alone exactly when each extra parent has directories only at and above it. */
  lemma {:induction false} BuildIsFixedPoint(raw: seq<Raw>, sizes: seq<U64>, pairs: seq<Pair>, slots: Arena, extra: map<nat, seq<nat>>)
    requires Linking(raw, sizes, pairs, slots, extra) && |pairs| < MAX_U32
    ensures AddAllLinks(RollUp(slots), extra, |slots|) == slots <==>
            forall k :: 0 <= k < |pairs| ==> DirsAbove(MftSlots(raw, sizes), MapRecord(|raw|, pairs[k].1))
  {
    hide RollUp, WalkEach, Recorded, DirsAbove, NoRepeats, FromPairs;
    var s, links := MftSlots(raw, sizes), LinksFrom(raw, sizes, pairs);
    HardLinksAreFixed(s, links, extra);
    forall k | 0 <= k < |pairs| ensures links[k] in links && links[k].parent == MapRecord(|raw|, pairs[k].1) {
    }
    if forall k :: 0 <= k < |pairs| ==> DirsAbove(s, MapRecord(|raw|, pairs[k].1)) {
      forall l | l in links ensures DirsAbove(s, l.parent) {
        var k :| 0 <= k < |links| && links[k] == l;
      }
    }
  }

  // -- Link parents that are directories below a file ----------------------------------------------

  const GONE: Raw := Raw(false, false, 0, 0, [], 0, 0, [])

  /** Record 5 is the root, 1 a file in it, 2 a directory whose parent is that file, 3 a file with a second name in 2. */
  const SPUR_RECORDS: seq<Raw> := [
    GONE, Raw(true, false, 0, 5, [102], 5, 0, []), Raw(true, true, 0, 1, [100], 0, 0, []), Raw(true, false, 0, 5, [103], 7, 0, [2]),
    GONE, Raw(true, true, 0, 5, [], 0, 0, [])]

  /** A record list every check of the builder passes, whose only extra parent is a directory: recomputing changes its totals all the same. */
  lemma {:induction false} DirectoryLinksCanDrift(sizes: seq<U64>, slots: Arena, extra: map<nat, seq<nat>>)
    requires Linking(SPUR_RECORDS, sizes, PairsTo(SPUR_RECORDS, 6), slots, extra)
    ensures TotalParents(SPUR_RECORDS, 6) < MAX_U32 && SPUR_RECORDS[ROOT_RECORD].used && SPUR_RECORDS[ROOT_RECORD].isDir
    ensures PairsTo(SPUR_RECORDS, 6) == [(3, 2)] && SPUR_RECORDS[2].used && SPUR_RECORDS[2].isDir
    ensures AddAllLinks(RollUp(slots), extra, |slots|) != slots
  {
    hide Linking, RollUp, AddAllLinks;
    var raw := SPUR_RECORDS;
    SpurPairs();
    assert |sizes| == 6 by { LinkingSizes(raw, sizes, PairsTo(raw, 6), slots, extra); }
    BuildIsFixedPoint(raw, sizes, PairsTo(raw, 6), slots, extra);
    var s := MftSlots(raw, sizes);
    assert MapRecord(6, 2) == 2 && MapRecord(6, 1) == 1 && MapRecord(6, 5) == 0;
    assert s[2].parent == 1 && s[2].used && s[1].used && !s[1].isDir;
    ParentIsClimbed(s, 2, WALK_LIMIT);
    var x := PairsTo(raw, 6)[0];
    assert !DirsAbove(s, MapRecord(6, x.1));
  }

  lemma {:induction false} ParentIsClimbed(s: Arena, i: nat, fuel: nat)
    requires Valid(s, i) && i != 0 && s[i].parent != i && Valid(s, s[i].parent) && fuel > 1
    ensures s[i].parent as nat in Climb(s, i, fuel, {})
  {
    var p: nat := s[i].parent;
    var none: set<nat> := {};
    assert none + {i} == {i};
    assert Climb(s, i, fuel, none) == [i] + Climb(s, p, fuel - 1, {i});
    assert Climb(s, p, fuel - 1, {i})[0] == p;
  }

  lemma LinkingSizes(raw: seq<Raw>, sizes: seq<U64>, pairs: seq<Pair>, slots: Arena, extra: map<nat, seq<nat>>)
    requires Linking(raw, sizes, pairs, slots, extra)
    ensures |sizes| == |raw|
  {
  }

  lemma SpurPairs()
    ensures PairsTo(SPUR_RECORDS, 6) == [(3, 2)] && TotalParents(SPUR_RECORDS, 6) == 1
  {
    var raw := SPUR_RECORDS;
    assert AddPairs(raw, [], 3, []) == [];
    assert [2 as U64][..0] == [];
    assert AddPairs(raw, [], 3, [2]) == [(3, 2)];
    PairsNext(raw, 0);
    PairsNext(raw, 1);
    PairsNext(raw, 2);
    PairsNext(raw, 3);
    PairsNext(raw, 4);
    PairsNext(raw, 5);
  }

  lemma {:induction false} PairsNext(raw: seq<Raw>, n: nat)
    requires n < |raw|
    ensures PairsTo(raw, n + 1) == (if Owner(raw, n).None? then PairsTo(raw, n) else AddPairs(raw, PairsTo(raw, n), Owner(raw, n).value, raw[n].linkParents))
    ensures TotalParents(raw, n + 1) == TotalParents(raw, n) + |raw[n].linkParents|
  {
  }
}
