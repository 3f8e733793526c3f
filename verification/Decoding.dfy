/** The two readers of a v7 base: one copies every record to the heap, one keeps the file mapped. */
module Decoding {
  import opened Words
  import opened Forest
  import opened Slots
  import opened Bytes
  import opened ChildRows
  import opened Validation
  import opened BaseFormat
  import opened SizeTrees

  // -- Sections: sorted by offset, then scanned once -----------------------------------------

  predicate Before(x: Section, y: Section)
  {
    x.off < y.off || (x.off == y.off && x.size <= y.size)
  }

  function Insert(x: Section, ss: seq<Section>): (r: seq<Section>)
    ensures |r| == |ss| + 1
  {
    if ss == [] then [x] else if Before(x, ss[0]) then [x] + ss else [ss[0]] + Insert(x, ss[1..])
  }

  function SortSections(ss: seq<Section>): (r: seq<Section>)
    ensures |r| == |ss|
  {
    if ss == [] then [] else Insert(ss[0], SortSections(ss[1..]))
  }

  ghost predicate InOrder(ss: seq<Section>)
  {
    forall i, j :: 0 <= i < j < |ss| ==> Before(ss[i], ss[j])
  }

  lemma {:induction false} InsertMembers(x: Section, ss: seq<Section>)
    ensures forall y :: y in Insert(x, ss) <==> y == x || y in ss
    ensures InOrder(ss) ==> InOrder(Insert(x, ss))
  {
    InOrderCons(x, ss);
    if ss != [] && !Before(x, ss[0]) {
      var h, t := ss[0], ss[1..];
      InsertMembers(x, t);
      assert ss == [h] + t;
      InOrderCons(h, t);
      InOrderCons(h, Insert(x, t));
    } else if ss != [] {
      assert ss == [ss[0]] + ss[1..];
      InOrderCons(ss[0], ss[1..]);
    }
  }

  lemma InOrderCons(x: Section, ss: seq<Section>)
    ensures InOrder([x] + ss) <==> (forall y :: y in ss ==> Before(x, y)) && InOrder(ss)
  {
    var all := [x] + ss;
    if InOrder(all) {
      forall y | y in ss ensures Before(x, y) {
        var k :| 0 <= k < |ss| && ss[k] == y;
        assert Before(all[0], all[k + 1]);
      }
      forall i, j | 0 <= i < j < |ss| ensures Before(ss[i], ss[j]) { assert Before(all[i + 1], all[j + 1]); }
    }
    if (forall y :: y in ss ==> Before(x, y)) && InOrder(ss) {
      forall i, j | 0 <= i < j < |all| ensures Before(all[i], all[j]) {
        assert all[j] == ss[j - 1] && ss[j - 1] in ss;
      }
    }
  }

  /** x is apart from each of ss, and they from one another. */
  ghost predicate ApartFromAll(x: Section, ss: seq<Section>)
  {
    forall y :: y in ss ==> Apart(x, y)
  }

  lemma DisjointCons(x: Section, ss: seq<Section>)
    ensures Disjoint([x] + ss) <==> ApartFromAll(x, ss) && Disjoint(ss)
  {
    var all := [x] + ss;
    if Disjoint(all) {
      forall y | y in ss ensures Apart(x, y) {
        var k :| 0 <= k < |ss| && ss[k] == y;
        assert Apart(all[0], all[k + 1]);
      }
      forall i, j | 0 <= i < j < |ss| ensures Apart(ss[i], ss[j]) { assert Apart(all[i + 1], all[j + 1]); }
    }
    if ApartFromAll(x, ss) && Disjoint(ss) {
      forall i, j | 0 <= i < j < |all| ensures Apart(all[i], all[j]) {
        assert all[j] == ss[j - 1] && ss[j - 1] in ss;
      }
    }
  }

  lemma {:induction false} InsertDisjoint(x: Section, ss: seq<Section>)
    ensures Disjoint(Insert(x, ss)) <==> Disjoint([x] + ss)
  {
    DisjointCons(x, ss);
    if ss != [] && !Before(x, ss[0]) {
      var h, t := ss[0], ss[1..];
      InsertDisjoint(x, t);
      InsertMembers(x, t);
      DisjointCons(x, t);
      DisjointCons(h, t);
      DisjointCons(h, Insert(x, t));
      assert ss == [h] + t;
      assert forall y :: y in ss <==> y == h || y in t;
      assert Apart(h, x) == Apart(x, h);
      assert ApartFromAll(x, ss) <==> Apart(x, h) && ApartFromAll(x, t);
      assert ApartFromAll(h, Insert(x, t)) <==> Apart(h, x) && ApartFromAll(h, t);
    }
  }

  lemma {:induction false} SortDisjoint(ss: seq<Section>)
    ensures Disjoint(SortSections(ss)) <==> Disjoint(ss)
    ensures InOrder(SortSections(ss))
    ensures forall y :: y in SortSections(ss) <==> y in ss
  {
    if ss != [] {
      var h, t := ss[0], ss[1..];
      SortDisjoint(t);
      InsertDisjoint(h, SortSections(t));
      InsertMembers(h, SortSections(t));
      DisjointCons(h, SortSections(t));
      DisjointCons(h, t);
      assert ss == [h] + t;
    }
  }

  /** The scan: every section starts at or after the end of the one before it, and ends inside the file. */
  predicate Scan(ss: seq<Section>, end: nat, length: nat)
  {
    ss == [] || (ss[0].off >= end && ss[0].off + ss[0].size <= length && Scan(ss[1..], ss[0].off + ss[0].size, length))
  }

  /** On sorted sections the scan decides pairwise disjointness. */
  lemma {:induction false} ScanDecides(ss: seq<Section>, end: nat, length: nat)
    requires InOrder(ss)
    ensures Scan(ss, end, length) <==>
            (forall x :: x in ss ==> x.off >= end && x.off + x.size <= length) && Disjoint(ss)
  {
    if ss != [] {
      var h, t := ss[0], ss[1..];
      assert ss == [h] + t && (forall x :: x in t ==> x in ss) && h in ss;
      forall i, j | 0 <= i < j < |t| ensures Before(t[i], t[j]) { assert Before(ss[i + 1], ss[j + 1]); }
      ScanDecides(t, h.off + h.size, length);
      DisjointCons(h, t);
      forall x | x in t ensures Before(h, x) {
        var k :| 0 <= k < |t| && t[k] == x;
        assert Before(ss[0], ss[k + 1]);
      }
    }
  }

  lemma SectionsInFile(l: Layout, length: nat)
    ensures InFile(l, length) <==> forall x :: x in Sections(l) ==> x.off + x.size <= length
  {
    var ss := Sections(l);
    assert ss[0] in ss && ss[1] in ss && ss[2] in ss && ss[3] in ss && ss[4] in ss;
  }

  lemma {:induction false} CheckSections(l: Layout, length: nat)
    ensures Scan(SortSections(Sections(l)), 0, length) <==> InFile(l, length) && Disjoint(Sections(l))
  {
    var ss := SortSections(Sections(l));
    SortDisjoint(Sections(l));
    ScanDecides(ss, 0, length);
    SectionsInFile(l, length);
  }

  // -- Header --------------------------------------------------------------------------------

  method CheckHeader(host: Host, b: Text, mount: Text) returns (ok: bool)
    ensures ok <==> HeaderOk(host, b, mount)
    ensures ok <==> Headed(host, b, mount)
  {
    hide Sections, SortSections, Scan, Disjoint, Headed, U32At, U64At, Checksum, Aligned;
    HeaderIsHeaded(host, b, mount);
    if |b| < HEADER || b[..8] != BASE_MAGIC || U32At(b, 8) != 7 {
      return false;
    }
    var checksum := U64At(b, 72);
    if checksum == 0 || Checksum(host, b, 72) != checksum {
      return false;
    }
    var l := ReadLayout(b);
    if HEADER + l.mountLen + l.nameLen > |b| {
      return false;
    }
    var labels := b[HEADER..HEADER + l.mountLen + l.nameLen];
    assert labels[..l.mountLen] == b[HEADER..HEADER + l.mountLen];
    if labels[..l.mountLen] != mount || !host.utf8(labels) || !Aligned(l) {
      return false;
    }
    CheckSections(l, |b|);
    return Scan(SortSections(Sections(l)), 0, |b|);
  }

  // -- Child table ------------------------------------------------------------------------------

  /** The table as far as rows below i and entry pos are concerned. */
  ghost predicate RowsSoFar(s: Arena, starts: seq<U32>, flat: seq<U32>, i: nat, pos: nat)
  {
    && |starts| == |s| + 1 && i <= |s| && pos <= |flat|
    && (forall r {:trigger starts[r]} :: 0 <= r < i ==> starts[r] <= starts[r + 1] <= |flat|)
    && (forall r: nat, j: nat {:trigger Listed(s, flat, r, j)} :: r < i && starts[r] <= j < starts[r + 1] <= |flat| ==> Listed(s, flat, r, j))
    && Distinct(flat[..pos])
  }

  /** Nodes marked as seen: the root and everything listed before pos. */
  ghost predicate Seen(n: nat, flat: seq<U32>, pos: nat, seen: seq<bool>)
  {
    |seen| == n && pos <= |flat| && forall c :: 0 <= c < n ==> (seen[c] <==> c == 0 || c in flat[..pos])
  }

  lemma ListNext(flat: seq<U32>, pos: nat)
    requires pos < |flat|
    ensures flat[..pos + 1] == flat[..pos] + [flat[pos]]
    ensures Distinct(flat[..pos + 1]) <==> Distinct(flat[..pos]) && flat[pos] !in flat[..pos]
  {
    var p, q := flat[..pos], flat[..pos + 1];
    assert q == p + [flat[pos]];
    if flat[pos] in p {
      var k :| 0 <= k < |p| && p[k] == flat[pos];
      assert q[k] == q[pos];
    }
    if Distinct(q) {
      assert forall a: nat, b: nat :: a < b < |p| ==> p[a] == q[a] && p[b] == q[b];
    }
    if Distinct(p) && flat[pos] !in p {
      forall a: nat, b: nat | a < b < |q| ensures q[a] != q[b] {
        assert q[a] == p[a] && p[a] in p;
      }
    }
  }

  lemma DistinctPrefix(flat: seq<U32>, pos: nat)
    requires pos <= |flat| && Distinct(flat)
    ensures Distinct(flat[..pos])
  {
  }

  /** One row of the table against the tree: in range, each entry a new child of i. */
  method CheckRow(s: Arena, starts: seq<U32>, flat: seq<U32>, i: nat, seen0: seq<bool>) returns (ok: bool, seen: seq<bool>)
    requires |starts| == |s| + 1 && i < |s| && starts[i] <= |flat|
    requires RowsSoFar(s, starts, flat, i, starts[i]) && Seen(|s|, flat, starts[i], seen0)
    ensures ok ==> starts[i + 1] <= |flat| && RowsSoFar(s, starts, flat, i + 1, starts[i + 1]) && Seen(|s|, flat, starts[i + 1], seen)
    ensures !ok ==> !RowsOk(s, starts, flat)
  {
    hide Distinct;
    seen := seen0;
    var start, stop := starts[i], starts[i + 1];
    if start > stop || stop > |flat| {
      return false, seen;
    }
    for j := start to stop
      invariant RowsSoFar(s, starts, flat, i, j) && Seen(|s|, flat, j, seen)
      invariant forall k: nat {:trigger Listed(s, flat, i, k)} :: start <= k < j ==> Listed(s, flat, i, k)
    {
      var child := flat[j];
      ListNext(flat, j);
      if child == 0 || child >= |s| || seen[child] || s[child].parent != i {
        BadEntry(s, starts, flat, i, j);
        return false, seen;
      }
      seen := seen[child := true];
    }
    ok := true;
  }

  lemma BadEntry(s: Arena, starts: seq<U32>, flat: seq<U32>, i: nat, j: nat)
    requires |starts| == |s| + 1 && i < |s| && starts[i] <= j < starts[i + 1] <= |flat|
    requires !Listed(s, flat, i, j) || flat[j] in flat[..j]
    ensures !RowsOk(s, starts, flat)
  {
    ListNext(flat, j);
    if Distinct(flat) { DistinctPrefix(flat, j + 1); }
  }

  /** The heap reader's check: every row, then every node seen. */
  method CheckRowsHeap(s: Arena, starts: seq<U32>, flat: seq<U32>) returns (ok: bool)
    requires |starts| == |s| + 1 && |s| > 0
    ensures ok <==> RowsOk(s, starts, flat)
  {
    hide Distinct, RowsOk, RowsSoFar, Seen;
    if starts[0] != 0 || starts[|s|] != |flat| {
      SentinelsNeeded(s, starts, flat);
      return false;
    }
    var seen := seq(|s|, i => i == 0);
    NothingSeen(s, starts, flat, seen);
    assert starts[0] == 0;
    for i := 0 to |s|
      invariant starts[i] <= |flat| && RowsSoFar(s, starts, flat, i, starts[i]) && Seen(|s|, flat, starts[i], seen)
    {
      ok, seen := CheckRow(s, starts, flat, i, seen);
      if !ok {
        return;
      }
    }
    SeenLength(s, flat, seen);
    for c := 0 to |s|
      invariant |seen| == |s| && forall x :: 0 <= x < c ==> seen[x]
    {
      if !seen[c] {
        UnseenIsMissing(s, starts, flat, seen, c);
        return false;
      }
    }
    AllSeen(s, starts, flat, seen);
    return true;
  }

  lemma SeenLength(s: Arena, flat: seq<U32>, seen: seq<bool>)
    ensures Seen(|s|, flat, |flat|, seen) ==> |seen| == |s|
  {
  }

  lemma SentinelsNeeded(s: Arena, starts: seq<U32>, flat: seq<U32>)
    requires |starts| == |s| + 1 && (starts[0] != 0 || starts[|s|] != |flat|)
    ensures !RowsOk(s, starts, flat)
  {
  }

  lemma NothingSeen(s: Arena, starts: seq<U32>, flat: seq<U32>, seen: seq<bool>)
    requires |starts| == |s| + 1 && starts[0] == 0
    requires |seen| == |s| && forall c :: 0 <= c < |s| ==> (seen[c] <==> c == 0)
    ensures RowsSoFar(s, starts, flat, 0, 0) && Seen(|s|, flat, 0, seen)
  {
  }

  lemma UnseenIsMissing(s: Arena, starts: seq<U32>, flat: seq<U32>, seen: seq<bool>, c: nat)
    requires Seen(|s|, flat, |flat|, seen) && c < |s| && !seen[c]
    ensures !RowsOk(s, starts, flat)
  {
    assert flat[..|flat|] == flat;
  }

  lemma AllSeen(s: Arena, starts: seq<U32>, flat: seq<U32>, seen: seq<bool>)
    requires RowsSoFar(s, starts, flat, |s|, |flat|) && Seen(|s|, flat, |flat|, seen)
    requires starts[0] == 0 && starts[|s|] == |flat| && forall x :: 0 <= x < |s| ==> seen[x]
    ensures RowsOk(s, starts, flat)
  {
    assert flat[..|flat|] == flat;
  }

  // -- The mapped reader counts entries instead of looking for gaps ------------------------------

  /** The table lists n - 1 distinct non-root nodes exactly when it lists them all. */
  lemma ListedOnceIsAll(n: nat, flat: seq<nat>)
    requires n > 0 && Distinct(flat) && forall k :: 0 <= k < |flat| ==> 0 < flat[k] < n
    ensures |flat| == n - 1 <==> forall c :: 0 < c < n ==> c in flat
  {
    hide Distinct, Elements, Range;
    var members, all := Elements(flat), Range(n) - {0};
    DistinctSize(flat);
    forall x | x in members ensures x in all {}
    SubsetSize(members, all);
    if |flat| == n - 1 {
      FullSubset(members, all);
      forall c: nat | 0 < c < n ensures c in flat { assert c in all; }
    } else if forall c :: 0 < c < n ==> c in flat {
      forall x | x in all ensures x in members {}
      SubsetSize(all, members);
    }
  }

  lemma {:induction false} FullSubset(s: set<nat>, t: set<nat>)
    requires s <= t && |s| == |t|
    ensures s == t
  {
    if s != t {
      var x :| x in t && x !in s;
      SubsetSize(s, t - {x});
    }
  }

  /** Rows that reach the end of the table have listed every entry as some node's child. */
  lemma {:induction false} EntriesListed(s: Arena, starts: seq<U32>, flat: seq<U32>, i: nat, k: nat)
    requires |starts| == |s| + 1 && starts[0] == 0 && i <= |s| && starts[i] <= |flat|
    requires RowsSoFar(s, starts, flat, i, starts[i]) && k < starts[i]
    ensures 0 < flat[k] < |s|
    decreases i
  {
    if i > 0 {
      assert starts[i - 1] <= starts[i];
      if k < starts[i - 1] {
        assert flat[..starts[i - 1]] == flat[..starts[i]][..starts[i - 1]];
        DistinctPrefix(flat[..starts[i]], starts[i - 1]);
        EntriesListed(s, starts, flat, i - 1, k);
      } else {
        assert Listed(s, flat, i - 1, k);
      }
    }
  }

  lemma RowsNeedCount(s: Arena, starts: seq<U32>, flat: seq<U32>)
    requires |s| > 0 && RowsOk(s, starts, flat)
    ensures |flat| == |s| - 1
  {
    assert flat[..|flat|] == flat;
    forall k | 0 <= k < |flat| ensures 0 < flat[k] < |s| { EntriesListed(s, starts, flat, |s|, k); }
    ListedOnceIsAll(|s|, flat);
  }

  lemma CountIsEnough(s: Arena, starts: seq<U32>, flat: seq<U32>)
    requires |s| > 0 && |flat| == |s| - 1 && |starts| == |s| + 1 && starts[0] == 0 && starts[|s|] == |flat|
    requires RowsSoFar(s, starts, flat, |s|, |flat|)
    ensures RowsOk(s, starts, flat)
  {
    assert flat[..|flat|] == flat;
    forall k | 0 <= k < |flat| ensures 0 < flat[k] < |s| { EntriesListed(s, starts, flat, |s|, k); }
    ListedOnceIsAll(|s|, flat);
  }

  // -- Rows as stored and as read -----------------------------------------------------------------

  lemma AscendingCons(h: nat, t: seq<nat>)
    ensures Ascending([h] + t) <==> (forall y :: y in t ==> h < y) && Ascending(t)
  {
    var all := [h] + t;
    if Ascending(all) {
      forall y | y in t ensures h < y {
        var k :| 0 <= k < |t| && t[k] == y;
        assert all[0] < all[k + 1];
      }
      forall i, j | 0 <= i < j < |t| ensures t[i] < t[j] { assert all[i + 1] < all[j + 1]; }
    }
    if (forall y :: y in t ==> h < y) && Ascending(t) {
      forall i, j | 0 <= i < j < |all| ensures all[i] < all[j] {
        assert all[j] == t[j - 1] && t[j - 1] in t;
      }
    }
  }

  function InsertId(x: nat, r: seq<nat>): (t: seq<nat>)
    ensures forall y :: y in t <==> y == x || y in r
    ensures Ascending(r) && x !in r ==> Ascending(t)
  {
    if r == [] then [x]
    else
      assert r == [r[0]] + r[1..];
      AscendingCons(r[0], r[1..]);
      if x < r[0] then
        AscendingCons(x, r);
        [x] + r
      else
        AscendingCons(r[0], InsertId(x, r[1..]));
        [r[0]] + InsertId(x, r[1..])
  }

  function SortIds(r: seq<nat>): (t: seq<nat>)
    ensures forall y :: y in t <==> y in r
    ensures Distinct(r) ==> Ascending(t)
  {
    if r == [] then [] else
      assert r == [r[0]] + r[1..];
      assert Distinct(r) ==> r[0] !in r[1..] && Distinct(r[1..]);
      InsertId(r[0], SortIds(r[1..]))
  }

  /** The stretch of the table that is row i. */
  function Stored(starts: seq<U32>, flat: seq<U32>, i: nat): seq<nat>
    requires i + 1 < |starts| && starts[i] <= starts[i + 1] <= |flat|
  {
    flat[starts[i]..starts[i + 1]]
  }

  /** A live, parent-first tree: every node but the root hangs off an earlier directory. */
  ghost predicate LiveTree(s: Arena)
  {
    IsDir(s, 0) && forall i :: 0 < i < |s| ==> s[i].used && IsDir(s, s[i].parent) && s[i].parent < i
  }

  lemma LiveEdges(s: Arena, c: nat)
    requires LiveTree(s) && c < |s|
    ensures HeapEdge(s, c) == if c == 0 then None else Some(s[c].parent as nat)
  {
  }

  /** Every entry before starts[n] lies in some row. */
  lemma {:induction false} RowOfEntry(s: Arena, starts: seq<U32>, flat: seq<U32>, n: nat, j: nat) returns (i: nat)
    requires RowsOk(s, starts, flat) && n <= |s| && j < starts[n]
    ensures i < n && starts[i] <= j < starts[i + 1] <= |flat|
    decreases n
  {
    hide Distinct, Listed;
    if j >= starts[n - 1] {
      i := n - 1;
    } else {
      i := RowOfEntry(s, starts, flat, n - 1, j);
    }
  }

  lemma RowBounds(s: Arena, starts: seq<U32>, flat: seq<U32>, i: nat)
    requires RowsOk(s, starts, flat) && i < |s|
    ensures |starts| == |s| + 1 && starts[i] <= starts[i + 1] <= |flat|
  {
  }

  lemma StoredIsDistinct(starts: seq<U32>, flat: seq<U32>, i: nat)
    requires Distinct(flat) && i + 1 < |starts| && starts[i] <= starts[i + 1] <= |flat|
    ensures Distinct(Stored(starts, flat, i))
  {
    var row := Stored(starts, flat, i);
    forall a: nat, b: nat | a < b < |row| ensures row[a] != row[b] {
      assert row[a] == flat[starts[i] + a] && row[b] == flat[starts[i] + b];
    }
  }

  lemma StoredAreChildren(s: Arena, starts: seq<U32>, flat: seq<U32>, i: nat, c: nat)
    requires LiveTree(s) && RowsOk(s, starts, flat) && i < |s|
    requires starts[i] <= starts[i + 1] <= |flat| && c in Stored(starts, flat, i)
    ensures c < |s| && HeapEdge(s, c) == Some(i)
  {
    var row := Stored(starts, flat, i);
    var k :| 0 <= k < |row| && row[k] == c;
    assert Listed(s, flat, i, starts[i] + k);
    LiveEdges(s, c);
  }

  lemma ChildrenAreStored(s: Arena, starts: seq<U32>, flat: seq<U32>, i: nat, c: nat)
    requires LiveTree(s) && RowsOk(s, starts, flat) && i < |s| && c < |s| && HeapEdge(s, c) == Some(i)
    requires starts[i] <= starts[i + 1] <= |flat|
    ensures c in Stored(starts, flat, i)
  {
    LiveEdges(s, c);
    assert c in flat;
    var j: nat :| j < |flat| && flat[j] == c;
    var r := RowOfEntry(s, starts, flat, |s|, j);
    assert Listed(s, flat, r, j);
    assert r == i;
    hide RowsOk, LiveTree, HeapEdge;
    var row := Stored(starts, flat, i);
    assert row[j - starts[i]] == c;
  }

  /** Row i lists exactly the children of i, each once. */
  lemma {:induction false} StoredRow(s: Arena, starts: seq<U32>, flat: seq<U32>, i: nat)
    requires LiveTree(s) && RowsOk(s, starts, flat) && i < |s|
    ensures |starts| == |s| + 1 && starts[i] <= starts[i + 1] <= |flat|
    ensures Distinct(Stored(starts, flat, i))
    ensures forall c :: c in Stored(starts, flat, i) <==> c in ChildIds(s, i, |s|)
  {
    hide Distinct, ChildIds, LiveTree, Stored, Listed;
    RowBounds(s, starts, flat, i);
    StoredIsDistinct(starts, flat, i);
    hide RowsOk;
    forall c | c in Stored(starts, flat, i) ensures c in ChildIds(s, i, |s|) { StoredAreChildren(s, starts, flat, i, c); }
    forall c | c in ChildIds(s, i, |s|) ensures c in Stored(starts, flat, i) { ChildrenAreStored(s, starts, flat, i, c); }
  }

  /** Listed in ascending order, or sorted, the row is the canonical one. */
  lemma {:induction false} RowRead(s: Arena, starts: seq<U32>, flat: seq<U32>, i: nat)
    requires LiveTree(s) && RowsOk(s, starts, flat) && i < |s|
    ensures Ascending(Stored(starts, flat, i)) ==> Stored(starts, flat, i) == ChildIds(s, i, |s|)
    ensures SortIds(Stored(starts, flat, i)) == ChildIds(s, i, |s|)
  {
    hide Distinct, RowsOk, ChildIds, SortIds;
    StoredRow(s, starts, flat, i);
    var row := Stored(starts, flat, i);
    if Ascending(row) { AscendingUnique(row, ChildIds(s, i, |s|)); }
    AscendingUnique(SortIds(row), ChildIds(s, i, |s|));
  }

  /** Whether a row is already in order, found by comparing each entry with the one before it. */
  method IsAscending(row: seq<nat>) returns (ordered: bool)
    requires Distinct(row)
    ensures ordered <==> Ascending(row)
  {
    ordered := true;
    var previous := 0;
    for j := 0 to |row|
      invariant j > 0 ==> previous == row[j - 1]
      invariant j == 0 ==> previous == 0
      invariant ordered <==> Ascending(row[..j])
    {
      AscendingNext(row, j);
      if row[j] < previous {
        ordered := false;
      }
      previous := row[j];
    }
    assert row[..|row|] == row;
  }

  lemma AscendingNext(row: seq<nat>, j: nat)
    requires Distinct(row) && j < |row|
    ensures Ascending(row[..j + 1]) <==> Ascending(row[..j]) && (j > 0 ==> row[j - 1] <= row[j])
  {
    var p, q := row[..j], row[..j + 1];
    if Ascending(q) {
      forall a, b | 0 <= a < b < |p| ensures p[a] < p[b] { assert q[a] < q[b]; }
      if j > 0 { assert q[j - 1] < q[j]; }
    }
    if Ascending(p) && (j > 0 ==> row[j - 1] <= row[j]) {
      forall a, b | 0 <= a < b < |q| ensures q[a] < q[b] {
        assert row[j - 1] != row[j] || j == 0;
        if b < j { assert p[a] < p[b]; } else if a < j - 1 { assert p[a] < p[j - 1]; }
      }
    }
  }

  /** The child view of a mapped base: the stored stretch unless a sorted copy was remembered. */
  function MappedRow(starts: seq<U32>, flat: seq<U32>, sorted: map<nat, seq<nat>>, i: nat): seq<nat>
    requires i + 1 < |starts| && starts[i] <= starts[i + 1] <= |flat|
  {
    if i in sorted then sorted[i] else Stored(starts, flat, i)
  }

  /** The mapped reader's check of the table. */
  method CheckRowsMapped(s: Arena, starts: seq<U32>, flat: seq<U32>) returns (ok: bool)
    requires |starts| == |s| + 1 && |s| > 0
    ensures ok <==> RowsOk(s, starts, flat)
  {
    hide Distinct, RowsOk, RowsSoFar, Seen;
    if |flat| != |s| - 1 || starts[0] != 0 || starts[|s|] != |flat| {
      MappedSentinels(s, starts, flat);
      return false;
    }
    var seen := seq(|s|, i => i == 0);
    NothingSeen(s, starts, flat, seen);
    assert starts[0] == 0;
    for i := 0 to |s|
      invariant starts[i] <= |flat| && RowsSoFar(s, starts, flat, i, starts[i]) && Seen(|s|, flat, starts[i], seen)
    {
      ok, seen := CheckRow(s, starts, flat, i, seen);
      if !ok {
        return;
      }
    }
    CountIsEnough(s, starts, flat);
    return true;
  }

  lemma MappedSentinels(s: Arena, starts: seq<U32>, flat: seq<U32>)
    requires |starts| == |s| + 1 && |s| > 0 && (|flat| != |s| - 1 || starts[0] != 0 || starts[|s|] != |flat|)
    ensures !RowsOk(s, starts, flat)
  {
    if RowsOk(s, starts, flat) { RowsNeedCount(s, starts, flat); }
  }

  /** Sorted copies of the rows the file lists out of order. */
  method RememberSorted(s: Arena, starts: seq<U32>, flat: seq<U32>) returns (sorted: map<nat, seq<nat>>)
    requires LiveTree(s) && RowsOk(s, starts, flat)
    ensures forall i: nat :: i < |s| ==> MappedRow(starts, flat, sorted, i) == ChildIds(s, i, |s|)
  {
    hide Distinct, ChildIds, SortIds, Listed;
    sorted := map[];
    for i := 0 to |s|
      invariant forall k :: k in sorted ==> k < i
      invariant forall k: nat :: k < i ==> MappedRow(starts, flat, sorted, k) == ChildIds(s, k, |s|)
    {
      StoredRow(s, starts, flat, i);
      RowRead(s, starts, flat, i);
      var row := Stored(starts, flat, i);
      var ordered := IsAscending(row);
      if !ordered {
        sorted := sorted[i := SortIds(row)];
      }
    }
  }

  // -- The heap reader --------------------------------------------------------------------------

  method ReadRecords(host: Host, b: Text, l: Layout) returns (ok: bool, slots: Arena)
    requires InFile(l, |b|)
    ensures ok <==> forall i :: 0 <= i < l.n ==> RecordOk(host, b, l, i)
    ensures ok ==> slots == Records(b, l)
  {
    hide RecordOk, RecordAt;
    slots := [];
    for i := 0 to l.n
      invariant slots == Records(b, l)[..i]
      invariant forall k :: 0 <= k < i ==> RecordOk(host, b, l, k)
    {
      if !RecordOk(host, b, l, i) {
        return false, slots;
      }
      slots := slots + [RecordAt(b, l, i)];
    }
    return true, slots;
  }

  method CountLive(s: Arena, directory: bool) returns (n: nat)
    ensures n == CountKind(s, directory)
  {
    hide CountKind;
    n := 0;
    CountNone(directory);
    assert s[..0] == [];
    for i := 0 to |s|
      invariant n == CountKind(s[..i], directory)
    {
      CountAppend(s[..i], s[i], directory);
      assert s[..i] + [s[i]] == s[..i + 1];
      if s[i].used && s[i].isDir == directory {
        n := n + 1;
      }
    }
    assert s[..|s|] == s;
  }

  lemma CountNone(directory: bool)
    ensures CountKind([], directory) == 0
  {
  }

  /** Copies every record, validates the tree they form and the table, and rebuilds the rows. */
  method HeapDecode(host: Host, fold: Fold, at: seq<Name>, b: Text, mount: Text) returns (r: Option<Decoded>, tree: SizeTree?)
    ensures r.Some? <==> Accepts(host, b, mount)
    ensures r.Some? ==> Headed(host, b, mount)
    ensures r.Some? ==> r.value == Denotes(b)
    ensures r.Some? ==> tree != null && fresh(tree) && tree.Ok() && tree.base.None? && tree.mount == at && tree.fold == fold
                        && tree.Slots() == Denotes(b).slots && tree.Kids() == Denotes(b).rows
  {
    hide HeaderOk, Headed, RecordOk, RecordAt, ValidTree, RowsOk, CountKind, U32At, U64At, CanonRows, RowsFit, SizeTree.NamesFit, SizeTree.StampsFit, ReadMeta, NameOffsets;
    var ok := CheckHeader(host, b, mount);
    if !ok {
      return None, null;
    }
    HeaderFacts(host, b, mount);
    var l := ReadLayout(b);
    var slots: Arena;
    ok, slots := ReadRecords(host, b, l);
    if !ok {
      return None, null;
    }
    ok := ValidateDiskTree(host, slots, true);
    if !ok {
      return None, null;
    }
    ok := CheckRowsHeap(slots, Starts(b, l), Flat(b, l));
    if !ok {
      return None, null;
    }
    var files := CountLive(slots, false);
    var dirs := CountLive(slots, true);
    if ReadMeta(b).files != files || ReadMeta(b).dirs != dirs {
      return None, null;
    }
    tree := new SizeTree.Bare(fold, at, slots);
    tree.RebuildChildArrays();
    RebuiltIsCanon(slots);
    r := Some(Decoded(slots, tree.children, NameOffsets(b, l), ReadMeta(b), U64At(b, 72)));
  }

  lemma HeaderFacts(host: Host, b: Text, mount: Text)
    requires HeaderOk(host, b, mount)
    ensures |b| >= HEADER && InFile(ReadLayout(b), |b|) && 0 < ReadLayout(b).n <= PARENT_LIMIT
  {
  }

  // -- The mapped reader --------------------------------------------------------------------------

  /** The per-record check on raw bytes: ordered parents make the cycle walk unnecessary. */
  predicate MappedRecordOk(host: Host, b: Text, l: Layout, i: nat)
    requires InFile(l, |b|) && i < l.n
  {
    && RecordOk(host, b, l, i)
    && var bits := U32At(b, l.eo + i * 24);
       var parent := BitsParent(bits);
       if i == 0 then parent == 0 && BitsDir(bits)
       else SafeName(host, NameOr(NameIn(Pool(b, l), U32At(b, l.eo + i * 24 + 4)))) && parent < i &&
            BitsUsed(U32At(b, l.eo + parent * 24)) && BitsDir(U32At(b, l.eo + parent * 24))
  }

  lemma RecordFields(b: Text, l: Layout, i: nat)
    requires InFile(l, |b|) && i < l.n <= PARENT_LIMIT
    ensures var r, bits := RecordAt(b, l, i), U32At(b, l.eo + i * 24);
      && r.parent == BitsParent(bits) && r.isDir == BitsDir(bits) && r.used == BitsUsed(bits)
      && r.name == NameOr(NameIn(Pool(b, l), U32At(b, l.eo + i * 24 + 4)))
      && r.parent < PARENT_LIMIT && r.mtime <= MAX_U32 && r.files <= MAX_U32
  {
    hide NameIn, NameOr;
  }

  lemma MappedRecord(host: Host, b: Text, l: Layout, i: nat)
    requires InFile(l, |b|) && i < l.n <= PARENT_LIMIT
    ensures MappedRecordOk(host, b, l, i) <==>
            && RecordOk(host, b, l, i)
            && LinkOk(host, Records(b, l), i, true) && (i == 0 ==> RootOk(Records(b, l)))
    ensures RecordOk(host, b, l, i) ==> Records(b, l)[i].used && Representable(host, Records(b, l)[i])
  {
    hide NameIn, SafeName, RecordAt, U32At, BitsParent, BitsDir, BitsUsed;
    var s := Records(b, l);
    assert s[i] == RecordAt(b, l, i);
    NameFits(Pool(b, l), U32At(b, l.eo + i * 24 + 4));
    RecordFields(b, l, i);
    var p := s[i].parent;
    if p < l.n {
      assert s[p] == RecordAt(b, l, p);
      RecordFields(b, l, p);
    }
  }

  lemma NameFits(pool: Text, off: nat)
    ensures NameIn(pool, off).Some? ==> |NameIn(pool, off).value| <= MAX_U16
  {
  }

  /** Record by record or as a whole tree, the two readers ask for the same. */
  lemma MappedRecordsAreTree(host: Host, b: Text, l: Layout)
    requires InFile(l, |b|) && 0 < l.n <= PARENT_LIMIT
    ensures (forall i :: 0 <= i < l.n ==> MappedRecordOk(host, b, l, i)) <==>
            (forall i :: 0 <= i < l.n ==> RecordOk(host, b, l, i)) && ValidTree(host, Records(b, l), true)
  {
    hide MappedRecordOk, RecordOk, RecordAt, Representable;
    var s := Records(b, l);
    forall i: nat | i < l.n
      ensures MappedRecordOk(host, b, l, i) <==> RecordOk(host, b, l, i) && LinkOk(host, s, i, true) && (i == 0 ==> RootOk(s))
      ensures RecordOk(host, b, l, i) ==> s[i].used && Representable(host, s[i])
    {
      MappedRecord(host, b, l, i);
    }
    if forall i :: 0 <= i < l.n ==> MappedRecordOk(host, b, l, i) {
      forall j | 0 < j < |s| && s[j].used ensures s[j].parent < j {
        assert MappedRecordOk(host, b, l, j) && LinkOk(host, s, j, true);
      }
      BackwardIsAcyclic(s);
      assert MappedRecordOk(host, b, l, 0);
    }
  }

  method CheckRecordsMapped(host: Host, b: Text, l: Layout) returns (ok: bool, files: nat, dirs: nat)
    requires InFile(l, |b|) && 0 < l.n <= PARENT_LIMIT
    ensures ok <==> (forall i :: 0 <= i < l.n ==> RecordOk(host, b, l, i)) && ValidTree(host, Records(b, l), true)
    ensures ok ==> files == CountKind(Records(b, l), false) && dirs == CountKind(Records(b, l), true)
  {
    hide MappedRecordOk, RecordOk, RecordAt, ValidTree, CountKind;
    MappedRecordsAreTree(host, b, l);
    ghost var s := Records(b, l);
    files, dirs := 0, 0;
    CountNone(true);
    CountNone(false);
    assert s[..0] == [];
    for i := 0 to l.n
      invariant forall k :: 0 <= k < i ==> MappedRecordOk(host, b, l, k)
      invariant files == CountKind(s[..i], false) && dirs == CountKind(s[..i], true)
    {
      if !MappedRecordOk(host, b, l, i) {
        return false, files, dirs;
      }
      MappedKind(host, b, l, i);
      CountAppend(s[..i], s[i], false);
      CountAppend(s[..i], s[i], true);
      assert s[..i] + [s[i]] == s[..i + 1];
      if BitsDir(U32At(b, l.eo + i * 24)) {
        dirs := dirs + 1;
      } else {
        files := files + 1;
      }
    }
    assert s[..|s|] == s;
    ok := true;
  }

  lemma MappedKind(host: Host, b: Text, l: Layout, i: nat)
    requires InFile(l, |b|) && i < l.n && MappedRecordOk(host, b, l, i)
    ensures Records(b, l)[i].used && Records(b, l)[i].isDir == BitsDir(U32At(b, l.eo + i * 24))
  {
  }

  /** Leaves the records in the file; rows are read from it, or from sorted copies. */
  method MappedDecode(host: Host, b: Text, mount: Text) returns (r: Option<Decoded>)
    ensures r.Some? <==> Accepts(host, b, mount)
    ensures r.Some? ==> Headed(host, b, mount)
    ensures r.Some? ==> r.value == Denotes(b)
  {
    hide HeaderOk, Headed, RecordOk, RecordAt, ValidTree, RowsOk, CountKind, ChildIds;
    var ok := CheckHeader(host, b, mount);
    if !ok {
      return None;
    }
    HeaderFacts(host, b, mount);
    var l := ReadLayout(b);
    var files, dirs;
    ok, files, dirs := CheckRecordsMapped(host, b, l);
    if !ok {
      return None;
    }
    var starts, flat := Starts(b, l), Flat(b, l);
    ok := CheckRowsMapped(Records(b, l), starts, flat);
    if !ok {
      return None;
    }
    if files != ReadMeta(b).files || dirs != ReadMeta(b).dirs {
      return None;
    }
    AcceptedIsLive(host, b, l);
    var sorted := RememberSorted(Records(b, l), starts, flat);
    var rows: Rows := ReadRows(Records(b, l), starts, flat, sorted);
    return Some(Decoded(Records(b, l), rows, NameOffsets(b, l), ReadMeta(b), U64At(b, 72)));
  }

  lemma AcceptedIsLive(host: Host, b: Text, l: Layout)
    requires |b| >= HEADER && InFile(l, |b|) && BodyOk(host, b, l)
    ensures LiveTree(Records(b, l))
  {
    hide RecordOk, RecordAt, RowsOk, CountKind;
    AcceptedAreLive(host, b, l);
    LiveValidIsSound(host, Records(b, l));
  }

  /** Every row as a reader of the mapped base sees it. */
  method ReadRows(s: Arena, starts: seq<U32>, flat: seq<U32>, sorted: map<nat, seq<nat>>) returns (rows: Rows)
    requires RowsOk(s, starts, flat)
    requires forall i: nat :: i < |s| ==> MappedRow(starts, flat, sorted, i) == ChildIds(s, i, |s|)
    ensures rows == CanonRows(s)
  {
    hide ChildIds, MappedRow;
    rows := [];
    for i := 0 to |s|
      invariant rows == CanonRows(s)[..i]
    {
      rows := rows + [MappedRow(starts, flat, sorted, i)];
    }
  }
}
