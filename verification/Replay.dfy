/** What replaying file-system changes onto a tree comes to: its slots, rows and coverage after any run of changes. */
module Replay {
  import opened Words
  import opened Slots
  import opened Worklist
  import opened Edits
  import opened Grafting
  import opened ChildRows
  import opened Coverage
  import opened Validation
  import opened SizeTrees
  import opened SpillTrees

  /** A scanned tree, the directory it was taken of and the gaps it reported. */
  datatype Scan = Scan(slots: Arena, from: seq<Name>, gaps: seq<Place>)

  /** What looking at a changed directory again brought: a whole tree as an S, or a spill of its records. */
  datatype Found<S> = Unreadable | Vanished | Whole(scan: S) | Spilled(records: seq<Record>, from: seq<Name>, gaps: seq<Place>)

  /** A path that is gone, a file that was written, or a directory that was looked at again. */
  datatype Change<S> =
    | Gone(path: seq<Name>)
    | Written(path: seq<Name>, size: U64, mtime: U64)
    | Rescanned(path: seq<Name>, found: Found<S>)

  /** A refresh under way: the tree, the gaps its rescans reported, the places it could not look at, and those it cleared. */
  datatype State = State(slots: Arena, rows: Rows, blocked: seq<Place>, unknown: seq<Place>, cleared: set<seq<Name>>)

  /** A change below the mount, its scan with a root. */
  ghost predicate Legal(c: Change<Scan>)
  {
    c.path != [] && (c.Rescanned? && c.found.Whole? ==> c.found.scan.slots != [])
  }

  /** The slots once what stood at path is gone. */
  ghost function Cleared(s: Arena, rows: Rows, fold: Fold, path: seq<Name>): (t: Arena)
    requires |rows| == |s|
    ensures |t| == |s|
  {
    var found := Resolve(s, rows, fold, path);
    if found.Some? then Removed(s, found.value) else s
  }

  /** The slots once a file stands at path; a directory the tree does not know takes none. */
  ghost function Wrote(s: Arena, rows: Rows, fold: Fold, path: seq<Name>, size: U64, mtime: U64): (t: Arena)
    requires |rows| == |s|
    ensures |t| >= |s|
  {
    var p := UpsertTarget(s, rows, fold, path);
    if p.None? || p.value >= MAX_U32 then s else Upserted(s, p.value, Resolve(s, rows, fold, path), path[|path| - 1], size, mtime)
  }

  /** The tree and gaps to graft under the name of a directory that was read again. */
  ghost function Brought(name: Name, found: Found<Scan>): (scan: Scan)
    requires found.Whole? || found.Spilled?
    requires found.Whole? ==> found.scan.slots != []
    ensures scan.slots != []
  {
    match found
    case Whole(scan) => scan
    case Spilled(records, from, gaps) => Scan(RollUp(SpillSlots(name, 0, records)), from, gaps)
  }

  /** Whether appending refuses: only a spill is checked record by record. */
  ghost predicate Refused(host: Host, s: Arena, p: nat, name: Name, found: Found<Scan>)
  {
    found.Spilled? && !(HeadOk(host, s, p, name, |found.records|) && SpillOk(host, found.records))
  }

  function Edited(x: State, slots: Arena): (y: State)
    requires |x.rows| <= |slots|
    ensures |y.rows| == |y.slots|
  {
    x.(slots := slots, rows := LinkedOn(slots, x.rows))
  }

  /** The state with a scan grafted under p. */
  ghost function Regrown(mount: seq<Name>, x: State, p: U32, name: Name, scan: Scan): (y: State)
    requires |x.rows| == |x.slots| && scan.slots != [] && |x.slots| + |scan.slots| <= MAX_U32
    ensures |y.rows| == |y.slots|
  {
    var y := Edited(x, Grafted(x.slots, scan.slots, p, name));
    y.(blocked := x.blocked + HandedOn(NewRoot(y.slots, mount, p, name), scan.from, scan.gaps))
  }

  /** The state after a directory that was read again or has vanished replaces what stood at path, if its parent is known. */
  ghost function Replaced(host: Host, fold: Fold, mount: seq<Name>, x: State, path: seq<Name>, found: Found<Scan>): (r: Option<State>)
    requires |x.rows| == |x.slots| && path != [] && !found.Unreadable? && (found.Whole? ==> found.scan.slots != [])
    ensures r.Some? ==> |r.value.rows| == |r.value.slots|
  {
    var n := |path| - 1;
    var p := Resolve(x.slots, x.rows, fold, path[..n]);
    if p.None? || !IsDir(x.slots, p.value) then Some(x)
    else
      var rest := Edited(x, Cleared(x.slots, x.rows, fold, path)).(cleared := x.cleared + {mount + path});
      if found.Vanished? then Some(rest)
      else if Refused(host, rest.slots, p.value, path[n], found) then None
      else
        var scan := Brought(path[n], found);
        if |rest.slots| + |scan.slots| > MAX_U32 || p.value > MAX_U32 then None else Some(Regrown(mount, rest, p.value, path[n], scan))
  }

  /** The state after one change, unless a spill is malformed. */
  ghost function After(host: Host, fold: Fold, mount: seq<Name>, x: State, c: Change<Scan>): (r: Option<State>)
    requires |x.rows| == |x.slots| && Legal(c)
    ensures r.Some? ==> |r.value.rows| == |r.value.slots|
  {
    match c
    case Gone(path) => Some(Edited(x, Cleared(x.slots, x.rows, fold, path)).(cleared := x.cleared + {mount + path}))
    case Written(path, size, mtime) => Some(Edited(x, Wrote(x.slots, x.rows, fold, path, size, mtime)))
    case Rescanned(path, found) =>
      if found.Unreadable? then Some(x.(unknown := x.unknown + [Place(true, mount + path)]))
      else Replaced(host, fold, mount, x, path, found)
  }

  /** The state after a run of changes. */
  ghost function Run(host: Host, fold: Fold, mount: seq<Name>, x: State, changes: seq<Change<Scan>>): (r: Option<State>)
    requires |x.rows| == |x.slots| && forall c :: c in changes ==> Legal(c)
    ensures r.Some? ==> |r.value.rows| == |r.value.slots|
  {
    if changes == [] then Some(x)
    else
      var y := Run(host, fold, mount, x, changes[..|changes| - 1]);
      if y.None? then None else After(host, fold, mount, y.value, changes[|changes| - 1])
  }

  // -- What the refreshed tree says it does not cover --------------------------------------------------

  /** At or below one of the places. */
  predicate Inside(places: set<seq<Name>>, path: seq<Name>)
  {
    exists p :: p in places && p <= path
  }

  /** At or below a place that was cleared. */
  predicate Covered(cleared: set<seq<Name>>, g: Place)
  {
    g.rooted && Inside(cleared, g.names)
  }

  /** The gaps known before that no cleared place covers. */
  function KeptGaps(gaps: seq<Place>, cleared: set<seq<Name>>): (r: seq<Place>)
    ensures forall g :: g in r <==> g in gaps && !Covered(cleared, g)
  {
    if gaps == [] then []
    else
      var g := gaps[|gaps| - 1];
      KeptGaps(gaps[..|gaps| - 1], cleared) + if Covered(cleared, g) then [] else [g]
  }

  /** The gaps of the refreshed tree. */
  function FinalGaps(gaps: seq<Place>, y: State): (r: seq<Place>)
  {
    KeptGaps(gaps, y.cleared) + y.blocked + y.unknown
  }

  /** A change that may replace what is known at its path. */
  predicate Replaces(c: Change<Scan>)
  {
    c.Gone? || (c.Rescanned? && !c.found.Unreadable?)
  }

  /** Each step keeps the gaps already reported and clears no more than its own path. */
  lemma StepKeepsGaps(host: Host, fold: Fold, mount: seq<Name>, x: State, c: Change<Scan>)
    requires |x.rows| == |x.slots| && Legal(c)
    ensures var r := After(host, fold, mount, x, c);
      r.Some? ==>
        && x.blocked <= r.value.blocked && x.unknown <= r.value.unknown
        && x.cleared <= r.value.cleared <= x.cleared + {mount + c.path}
        && (!Replaces(c) ==> r.value.cleared == x.cleared)
  {
    hide Resolve, Removed, Upserted, Grafted, NewRoot, HandedOn, LinkedOn, HeadOk, SpillOk, RollUp, SpillSlots;
  }

  /** The gaps reported by the first n changes of a run are gaps at its end, and so are the places it could not look at. */
  lemma {:induction false} GapsStay(host: Host, fold: Fold, mount: seq<Name>, x: State, changes: seq<Change<Scan>>, n: nat)
    requires |x.rows| == |x.slots| && (forall c :: c in changes ==> Legal(c)) && n <= |changes|
    requires Run(host, fold, mount, x, changes).Some?
    ensures var y, z := Run(host, fold, mount, x, changes[..n]), Run(host, fold, mount, x, changes).value;
      y.Some? && y.value.blocked <= z.blocked && y.value.unknown <= z.unknown
  {
    hide After;
    if n < |changes| {
      var m := |changes| - 1;
      assert changes[..m][..n] == changes[..n];
      GapsStay(host, fold, mount, x, changes[..m], n);
      StepKeepsGaps(host, fold, mount, Run(host, fold, mount, x, changes[..m]).value, changes[m]);
    } else {
      assert changes[..n] == changes;
    }
  }

  /** Whatever a run cleared, one of its changes replaced. */
  lemma {:induction false} ClearedByChange(host: Host, fold: Fold, mount: seq<Name>, x: State, changes: seq<Change<Scan>>, place: seq<Name>)
    requires |x.rows| == |x.slots| && forall c :: c in changes ==> Legal(c)
    requires Run(host, fold, mount, x, changes).Some? && place in Run(host, fold, mount, x, changes).value.cleared
    ensures place in x.cleared || exists c :: c in changes && Replaces(c) && place == mount + c.path
  {
    hide After;
    if changes != [] {
      var m := |changes| - 1;
      var y := Run(host, fold, mount, x, changes[..m]).value;
      StepKeepsGaps(host, fold, mount, y, changes[m]);
      assert changes[m] in changes;
      if place in y.cleared { ClearedByChange(host, fold, mount, x, changes[..m], place); }
    }
  }

  /** What a replaced directory of a run was grafted as, when it was. */
  ghost predicate Grafts(host: Host, fold: Fold, mount: seq<Name>, x: State, c: Change<Scan>, root: Place)
    requires |x.rows| == |x.slots| && Legal(c)
  {
    && c.Rescanned? && (c.found.Whole? || c.found.Spilled?)
    && var p := Resolve(x.slots, x.rows, fold, c.path[..|c.path| - 1]);
       var r := After(host, fold, mount, x, c);
       && p.Some? && IsDir(x.slots, p.value) && r.Some?
       && root == NewRoot(r.value.slots, mount, p.value, c.path[|c.path| - 1])
  }

  lemma {:induction false} RegrownReports(mount: seq<Name>, x: State, p: U32, name: Name, scan: Scan, rest: seq<Name>)
    requires |x.rows| == |x.slots| && scan.slots != [] && |x.slots| + |scan.slots| <= MAX_U32
    requires Place(true, scan.from + rest) in scan.gaps
    ensures var y := Regrown(mount, x, p, name, scan); var root := NewRoot(y.slots, mount, p, name);
      root.(names := root.names + rest) in y.blocked
  {
    hide Grafted, NewRoot, HandedOn, LinkedOn;
    var y := Regrown(mount, x, p, name, scan);
    var root := NewRoot(y.slots, mount, p, name);
    GapsAreMoved(root, scan.from, scan.gaps, root.(names := root.names + rest));
  }

  lemma {:induction false} GraftReports(host: Host, fold: Fold, mount: seq<Name>, x: State, c: Change<Scan>, root: Place, rest: seq<Name>)
    requires |x.rows| == |x.slots| && Legal(c) && Grafts(host, fold, mount, x, c, root)
    requires var scan := Brought(c.path[|c.path| - 1], c.found); Place(true, scan.from + rest) in scan.gaps
    ensures var r := After(host, fold, mount, x, c); r.Some? && root.(names := root.names + rest) in r.value.blocked
  {
    hide Resolve, NewRoot, Regrown, Edited, Cleared, Refused, Brought;
    var n := |c.path| - 1;
    var p := Resolve(x.slots, x.rows, fold, c.path[..n]).value;
    var cleared := Edited(x, Cleared(x.slots, x.rows, fold, c.path)).(cleared := x.cleared + {mount + c.path});
    RegrownReports(mount, cleared, p, c.path[n], Brought(c.path[n], c.found), rest);
  }

  /** The n-th change grafts a scan at root that reports a gap at `rest` below it. */
  ghost predicate Reports(host: Host, fold: Fold, mount: seq<Name>, x: State, changes: seq<Change<Scan>>, n: nat, root: Place, rest: seq<Name>)
    requires |x.rows| == |x.slots| && forall c :: c in changes ==> Legal(c)
  {
    && n < |changes|
    && var y := Run(host, fold, mount, x, changes[..n]);
       && y.Some? && Grafts(host, fold, mount, y.value, changes[n], root)
       && var scan := Brought(changes[n].path[|changes[n].path| - 1], changes[n].found);
          Place(true, scan.from + rest) in scan.gaps
  }

  /**
   * No gap is forgotten: one known before is still marked unless a change replaced a place at or above it, every
   * directory that could not be read is marked, and so is every gap of a rescan, moved to where its tree was grafted.
   */
  lemma {:induction false} NoGapIsForgotten(host: Host, fold: Fold, mount: seq<Name>, x: State, changes: seq<Change<Scan>>, known: seq<Place>)
    requires |x.rows| == |x.slots| && x.cleared == {} && forall c :: c in changes ==> Legal(c)
    requires Run(host, fold, mount, x, changes).Some?
    ensures var final := FinalGaps(known, Run(host, fold, mount, x, changes).value);
      && (forall g :: g in known ==>
            g in final || (g.rooted && exists c :: c in changes && Replaces(c) && mount + c.path <= g.names))
      && (forall g :: g in x.unknown ==> g in final)
      && (forall c :: c in changes && c.Rescanned? && c.found.Unreadable? ==> Place(true, mount + c.path) in final)
      && (forall n, root, rest: seq<Name> {:trigger Reports(host, fold, mount, x, changes, n, root, rest)} ::
            Reports(host, fold, mount, x, changes, n, root, rest) ==> root.(names := root.names + rest) in final)
  {
    hide After, KeptGaps, Replaces, Reports;
    var y := Run(host, fold, mount, x, changes).value;
    var final := FinalGaps(known, y);
    GapsStay(host, fold, mount, x, changes, 0);
    forall g | g in known && g !in final ensures g.rooted && exists c :: c in changes && Replaces(c) && mount + c.path <= g.names {
      assert Covered(y.cleared, g);
      var place :| place in y.cleared && place <= g.names;
      ClearedByChange(host, fold, mount, x, changes, place);
    }
    forall c | c in changes && c.Rescanned? && c.found.Unreadable? ensures Place(true, mount + c.path) in final {
      var n: nat :| n < |changes| && changes[n] == c;
      UnreadableIsMarked(host, fold, mount, x, changes, n);
    }
    forall n: nat, root, rest: seq<Name> | Reports(host, fold, mount, x, changes, n, root, rest) ensures root.(names := root.names + rest) in final {
      ReportStays(host, fold, mount, x, changes, n, root, rest);
    }
  }

  lemma {:induction false} RunNext(host: Host, fold: Fold, mount: seq<Name>, x: State, changes: seq<Change<Scan>>, n: nat)
    requires |x.rows| == |x.slots| && (forall c :: c in changes ==> Legal(c)) && n < |changes|
    ensures Legal(changes[n])
    ensures var y := Run(host, fold, mount, x, changes[..n]);
      Run(host, fold, mount, x, changes[..n + 1]) == if y.None? then None else After(host, fold, mount, y.value, changes[n])
  {
    hide After;
    assert changes[..n + 1][..n] == changes[..n];
  }

  lemma {:induction false} UnreadableIsMarked(host: Host, fold: Fold, mount: seq<Name>, x: State, changes: seq<Change<Scan>>, n: nat)
    requires |x.rows| == |x.slots| && (forall c :: c in changes ==> Legal(c)) && Run(host, fold, mount, x, changes).Some?
    requires n < |changes| && changes[n].Rescanned? && changes[n].found.Unreadable?
    ensures Place(true, mount + changes[n].path) in Run(host, fold, mount, x, changes).value.unknown
  {
    hide Replaced, Run;
    GapsStay(host, fold, mount, x, changes, n);
    GapsStay(host, fold, mount, x, changes, n + 1);
    RunNext(host, fold, mount, x, changes, n);
    var y := Run(host, fold, mount, x, changes[..n + 1]).value;
    assert y.unknown[|y.unknown| - 1] == Place(true, mount + changes[n].path);
    assert y.unknown[|y.unknown| - 1] == Run(host, fold, mount, x, changes).value.unknown[|y.unknown| - 1];
  }

  lemma {:induction false} ReportStays(host: Host, fold: Fold, mount: seq<Name>, x: State, changes: seq<Change<Scan>>, n: nat, root: Place, rest: seq<Name>)
    requires |x.rows| == |x.slots| && (forall c :: c in changes ==> Legal(c)) && Run(host, fold, mount, x, changes).Some?
    requires Reports(host, fold, mount, x, changes, n, root, rest)
    ensures root.(names := root.names + rest) in Run(host, fold, mount, x, changes).value.blocked
  {
    hide After, Run, Grafts;
    GapsStay(host, fold, mount, x, changes, n + 1);
    RunNext(host, fold, mount, x, changes, n);
    GraftReports(host, fold, mount, Run(host, fold, mount, x, changes[..n]).value, changes[n], root, rest);
  }

  // -- And nothing else is a gap -------------------------------------------------------------------

  /** The change replaces what stands at its path: a removal always, a directory read again if its parent is known. */
  ghost predicate Replacing(fold: Fold, x: State, c: Change<Scan>)
    requires |x.rows| == |x.slots| && Legal(c)
  {
    c.Gone? || (c.Rescanned? && !c.found.Unreadable?
                && var p := Resolve(x.slots, x.rows, fold, c.path[..|c.path| - 1]); p.Some? && IsDir(x.slots, p.value))
  }

  /** The n-th change replaces what stands at its path. */
  ghost predicate ReplacedAt(host: Host, fold: Fold, mount: seq<Name>, x: State, changes: seq<Change<Scan>>, n: nat)
    requires |x.rows| == |x.slots| && forall c :: c in changes ==> Legal(c)
  {
    && n < |changes|
    && var y := Run(host, fold, mount, x, changes[..n]);
       y.Some? && Replacing(fold, y.value, changes[n])
  }

  /** The grafted scan reports a gap here. */
  ghost predicate GapOf(host: Host, fold: Fold, mount: seq<Name>, x: State, c: Change<Scan>, root: Place, rest: seq<Name>, g: Place)
    requires |x.rows| == |x.slots| && Legal(c)
  {
    Grafts(host, fold, mount, x, c, root) && g == root.(names := root.names + rest)
    && var scan := Brought(c.path[|c.path| - 1], c.found); Place(true, scan.from + rest) in scan.gaps
  }

  lemma {:induction false} AfterGaps(host: Host, fold: Fold, mount: seq<Name>, x: State, c: Change<Scan>)
    requires |x.rows| == |x.slots| && Legal(c) && After(host, fold, mount, x, c).Some?
    ensures var r := After(host, fold, mount, x, c).value;
      && r.cleared == x.cleared + (if Replacing(fold, x, c) then {mount + c.path} else {})
      && r.unknown == x.unknown + (if c.Rescanned? && c.found.Unreadable? then [Place(true, mount + c.path)] else [])
  {
    hide Resolve, Removed, Upserted, Grafted, NewRoot, HandedOn, LinkedOn, HeadOk, SpillOk, RollUp, SpillSlots;
  }

  lemma {:induction false} AfterReports(host: Host, fold: Fold, mount: seq<Name>, x: State, c: Change<Scan>, g: Place)
    requires |x.rows| == |x.slots| && Legal(c) && After(host, fold, mount, x, c).Some?
    ensures g in After(host, fold, mount, x, c).value.blocked ==>
              g in x.blocked || exists root, rest: seq<Name> :: GapOf(host, fold, mount, x, c, root, rest, g)
  {
    hide Resolve, Removed, Upserted, Grafted, NewRoot, HandedOn, LinkedOn, HeadOk, SpillOk, RollUp, SpillSlots, Brought;
    var y := After(host, fold, mount, x, c).value;
    if g in y.blocked && g !in x.blocked {
      var p := Resolve(x.slots, x.rows, fold, c.path[..|c.path| - 1]).value;
      var scan, root := Brought(c.path[|c.path| - 1], c.found), NewRoot(y.slots, mount, p, c.path[|c.path| - 1]);
      GapsAreMoved(root, scan.from, scan.gaps, g);
      var rest: seq<Name> :| Place(true, scan.from + rest) in scan.gaps && g == root.(names := root.names + rest);
      assert GapOf(host, fold, mount, x, c, root, rest, g);
    }
  }

  lemma {:induction false} ClearedExactly(host: Host, fold: Fold, mount: seq<Name>, x: State, changes: seq<Change<Scan>>, place: seq<Name>)
    requires |x.rows| == |x.slots| && forall c :: c in changes ==> Legal(c)
    requires Run(host, fold, mount, x, changes).Some?
    ensures place in Run(host, fold, mount, x, changes).value.cleared <==>
            place in x.cleared || exists n: nat :: ReplacedAt(host, fold, mount, x, changes, n) && place == mount + changes[n].path
  {
    hide After, Replacing;
    if changes != [] {
      var m := |changes| - 1;
      var y := Run(host, fold, mount, x, changes[..m]).value;
      ClearedExactly(host, fold, mount, x, changes[..m], place);
      AfterGaps(host, fold, mount, y, changes[m]);
      forall n: nat | n < m ensures ReplacedAt(host, fold, mount, x, changes[..m], n) <==> ReplacedAt(host, fold, mount, x, changes, n) {
        assert changes[..m][..n] == changes[..n];
      }
      assert Replacing(fold, y, changes[m]) <==> ReplacedAt(host, fold, mount, x, changes, m);
      forall n: nat | ReplacedAt(host, fold, mount, x, changes[..m], n) ensures changes[..m][n] == changes[n] && n < m { }
    }
  }

  lemma {:induction false} UnknownExactly(host: Host, fold: Fold, mount: seq<Name>, x: State, changes: seq<Change<Scan>>, g: Place)
    requires |x.rows| == |x.slots| && forall c :: c in changes ==> Legal(c)
    requires Run(host, fold, mount, x, changes).Some? && g in Run(host, fold, mount, x, changes).value.unknown
    ensures g in x.unknown || exists c :: c in changes && c.Rescanned? && c.found.Unreadable? && g == Place(true, mount + c.path)
  {
    hide After, Replacing;
    if changes != [] {
      var m := |changes| - 1;
      var y := Run(host, fold, mount, x, changes[..m]).value;
      AfterGaps(host, fold, mount, y, changes[m]);
      assert changes[m] in changes;
      if g in y.unknown { UnknownExactly(host, fold, mount, x, changes[..m], g); }
    }
  }

  lemma {:induction false} ReportedExactly(host: Host, fold: Fold, mount: seq<Name>, x: State, changes: seq<Change<Scan>>, g: Place)
    requires |x.rows| == |x.slots| && forall c :: c in changes ==> Legal(c)
    requires Run(host, fold, mount, x, changes).Some? && g in Run(host, fold, mount, x, changes).value.blocked
    ensures g in x.blocked || exists n: nat, root, rest: seq<Name> :: Reports(host, fold, mount, x, changes, n, root, rest) && g == root.(names := root.names + rest)
  {
    hide After, Grafts, Brought;
    if changes != [] {
      var m := |changes| - 1;
      var y := Run(host, fold, mount, x, changes[..m]).value;
      if g in y.blocked {
        ReportedExactly(host, fold, mount, x, changes[..m], g);
        if g !in x.blocked {
          var n: nat, root, rest: seq<Name> :| Reports(host, fold, mount, x, changes[..m], n, root, rest) && g == root.(names := root.names + rest);
          assert changes[..m][..n] == changes[..n];
          assert Reports(host, fold, mount, x, changes, n, root, rest);
        }
      } else {
        AfterReports(host, fold, mount, y, changes[m], g);
        var root, rest: seq<Name> :| GapOf(host, fold, mount, y, changes[m], root, rest, g);
        assert Reports(host, fold, mount, x, changes, m, root, rest);
      }
    }
  }

  /**
   * And none is invented: a gap at the end was known before, at or below no place a change replaced, or is a directory
   * that could not be read, or was reported by a grafted scan.
   */
  lemma {:induction false} NoGapIsInvented(host: Host, fold: Fold, mount: seq<Name>, x: State, changes: seq<Change<Scan>>, known: seq<Place>, g: Place)
    requires |x.rows| == |x.slots| && x.cleared == {} && x.blocked == [] && forall c :: c in changes ==> Legal(c)
    requires Run(host, fold, mount, x, changes).Some? && g in FinalGaps(known, Run(host, fold, mount, x, changes).value)
    ensures (g in known && !(g.rooted && exists n: nat :: ReplacedAt(host, fold, mount, x, changes, n) && mount + changes[n].path <= g.names))
            || g in x.unknown || (exists c :: c in changes && c.Rescanned? && c.found.Unreadable? && g == Place(true, mount + c.path))
            || exists n: nat, root, rest: seq<Name> :: Reports(host, fold, mount, x, changes, n, root, rest) && g == root.(names := root.names + rest)
  {
    hide Run, Reports, KeptGaps, Replacing;
    var y := Run(host, fold, mount, x, changes).value;
    if g in y.blocked {
      ReportedExactly(host, fold, mount, x, changes, g);
    } else if g in y.unknown {
      UnknownExactly(host, fold, mount, x, changes, g);
    } else {
      assert g in KeptGaps(known, y.cleared);
      if g.rooted {
        if n: nat :| ReplacedAt(host, fold, mount, x, changes, n) && mount + changes[n].path <= g.names {
          ClearedExactly(host, fold, mount, x, changes, mount + changes[n].path);
        }
      }
    }
  }
}
