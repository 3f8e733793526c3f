/** The disk selection: nearest inclusion or exclusion wins, and targets are split around every exclusion. */
module Selection {
  import opened Words
  import opened RootCoalescing

  type Sizes = map<Path, U64>

  function Parent(p: Path): (q: Path)
    requires p != []
    ensures |q| == |p| - 1
  {
    p[..|p| - 1]
  }

  /** The verdict on a path: that of the nearest entry at or above it, an exclusion first. */
  predicate Verdict(sel: set<Path>, exc: set<Path>, p: Path)
    decreases |p|
  {
    p !in exc && (p in sel || (p != [] && Verdict(sel, exc, Parent(p))))
  }

  /** The verdict a path inherits from above. */
  predicate Inherited(sel: set<Path>, exc: set<Path>, p: Path)
  {
    p != [] && Verdict(sel, exc, Parent(p))
  }

  ghost predicate HasSelectedAncestor(sel: set<Path>, p: Path)
  {
    exists k :: 0 <= k < |p| && p[..k] in sel
  }

  /** From the entry at depth k down to the path nothing is excluded. */
  ghost predicate IncludedFrom(sel: set<Path>, exc: set<Path>, p: Path, k: nat)
  {
    k <= |p| && p[..k] in sel && forall j :: k <= j <= |p| ==> p[..j] !in exc
  }

  /** Nearest-entry precedence, said without the walk. */
  lemma {:induction false} VerdictMeans(sel: set<Path>, exc: set<Path>, p: Path)
    ensures Verdict(sel, exc, p) <==> exists k: nat :: IncludedFrom(sel, exc, p, k)
    decreases |p|
  {
    assert p[..|p|] == p;
    if p in sel && p !in exc { assert IncludedFrom(sel, exc, p, |p|); }
    if p != [] {
      var q := Parent(p);
      VerdictMeans(sel, exc, q);
      assert forall j :: 0 <= j <= |q| ==> p[..j] == q[..j];
      if p !in exc && Verdict(sel, exc, q) {
        var k: nat :| IncludedFrom(sel, exc, q, k);
        assert IncludedFrom(sel, exc, p, k);
      }
      if k: nat :| IncludedFrom(sel, exc, p, k) && k < |p| {
        assert IncludedFrom(sel, exc, q, k);
      }
    }
  }

  // ---------------------------------------------------------------- entries that change nothing

  /** Dropping an inclusion that is inherited anyway changes no verdict. */
  lemma {:induction false} CoveredIsIdle(sel: set<Path>, exc: set<Path>, p: Path, q: Path)
    requires Inherited(sel, exc, p) && p !in exc
    ensures Verdict(sel - {p}, exc, q) == Verdict(sel, exc, q)
    decreases |q|
  {
    if q != [] { CoveredIsIdle(sel, exc, p, Parent(q)); }
  }

  /** Dropping an exclusion with nothing selected above it changes no verdict. */
  lemma {:induction false} BareIsIdle(sel: set<Path>, exc: set<Path>, e: Path, q: Path)
    requires !HasSelectedAncestor(sel, e) && e !in sel
    ensures Verdict(sel, exc - {e}, q) == Verdict(sel, exc, q)
    decreases |q|
  {
    if q != [] { BareIsIdle(sel, exc, e, Parent(q)); }
    if q == e && q != [] {
      NothingAbove(sel, exc - {e}, Parent(e), e);
    }
  }

  lemma {:induction false} NothingAbove(sel: set<Path>, exc: set<Path>, q: Path, e: Path)
    requires !HasSelectedAncestor(sel, e) && |q| < |e| && q <= e
    ensures !Verdict(sel, exc, q)
    decreases |q|
  {
    assert q == e[..|q|];
    if q != [] { NothingAbove(sel, exc, Parent(q), e); }
  }

  // ---------------------------------------------------------------- the operations on the maps

  /** The inclusions left when those that `drops` names and that are inherited anyway are removed. */
  ghost function WithoutCovered(sel: Sizes, exc: Sizes, drops: set<Path>): (r: Sizes)
  {
    map p | p in sel && !(p in drops && Inherited(sel.Keys, exc.Keys, p)) :: sel[p]
  }

  /** The exclusions left when those with nothing selected above them are removed. */
  ghost function WithoutBare(sel: Sizes, exc: Sizes): (r: Sizes)
  {
    map e | e in exc && HasSelectedAncestor(sel.Keys, e) :: exc[e]
  }

  ghost predicate Disjoint(sel: Sizes, exc: Sizes) { sel.Keys !! exc.Keys }

  ghost predicate SameVerdicts(sel: Sizes, exc: Sizes, sel': Sizes, exc': Sizes)
  {
    forall q :: Verdict(sel.Keys, exc.Keys, q) == Verdict(sel'.Keys, exc'.Keys, q)
  }

  function StrictlyInside(sel: Sizes, path: Path): (r: set<Path>)
  {
    set p | p in sel && p != path && Within(p, path)
  }

  ghost function Toggled(sel: Sizes, exc: Sizes, path: Path, size: U64): (r: (Sizes, Sizes))
  {
    if Verdict(sel.Keys, exc.Keys, path) then
      if path in sel then (sel - {path}, WithoutBare(sel - {path}, exc))
      else (sel, exc[path := size])
    else if path in exc then (sel, exc - {path})
    else
      var more := sel[path := size];
      (WithoutCovered(more, exc, StrictlyInside(more, path)), exc)
  }

  /** Pruning covered inclusions one after another, in whatever order, keeps every verdict. */
  lemma {:induction false} PruningKeepsVerdicts(sel: Sizes, exc: Sizes, drops: set<Path>)
    requires Disjoint(sel, exc)
    ensures SameVerdicts(sel, exc, WithoutCovered(sel, exc, drops), exc)
  {
    var gone := set p | p in sel && p in drops && Inherited(sel.Keys, exc.Keys, p);
    assert WithoutCovered(sel, exc, drops).Keys == sel.Keys - gone;
    CoveredSetIsIdle(sel.Keys, exc.Keys, gone);
  }

  lemma {:induction false} CoveredSetIsIdle(sel: set<Path>, exc: set<Path>, gone: set<Path>)
    requires gone !! exc && forall p :: p in gone ==> Inherited(sel, exc, p)
    ensures forall q :: Verdict(sel - gone, exc, q) == Verdict(sel, exc, q)
  {
    if gone == {} {
      assert sel - gone == sel;
    } else {
      var p :| p in gone;
      var left := sel - {p};
      forall q ensures Verdict(left, exc, q) == Verdict(sel, exc, q) { CoveredIsIdle(sel, exc, p, q); }
      CoveredSetIsIdle(left, exc, gone - {p});
      assert left - (gone - {p}) == sel - gone;
    }
  }

  lemma {:induction false} BareSetIsIdle(sel: set<Path>, exc: set<Path>, gone: set<Path>)
    requires gone !! sel && forall e :: e in gone ==> !HasSelectedAncestor(sel, e)
    ensures forall q :: Verdict(sel, exc - gone, q) == Verdict(sel, exc, q)
  {
    if gone == {} {
      assert exc - gone == exc;
    } else {
      var e :| e in gone;
      var left := exc - {e};
      forall q ensures Verdict(sel, left, q) == Verdict(sel, exc, q) { BareIsIdle(sel, exc, e, q); }
      BareSetIsIdle(sel, left, gone - {e});
      assert left - (gone - {e}) == exc - gone;
    }
  }

  lemma BareKeepsVerdicts(sel: Sizes, exc: Sizes)
    requires Disjoint(sel, exc)
    ensures SameVerdicts(sel, exc, sel, WithoutBare(sel, exc))
  {
    var gone := set e | e in exc && !HasSelectedAncestor(sel.Keys, e);
    assert WithoutBare(sel, exc).Keys == exc.Keys - gone;
    BareSetIsIdle(sel.Keys, exc.Keys, gone);
  }

  // ---------------------------------------------------------------- what a toggle does

  lemma ToggleKeepsDisjoint(sel: Sizes, exc: Sizes, path: Path, size: U64)
    requires Disjoint(sel, exc)
    ensures Disjoint(Toggled(sel, exc, path, size).0, Toggled(sel, exc, path, size).1)
  {
  }

  /** The entries a toggle really changes, before the maps are tidied. */
  ghost function Changed(sel: Sizes, exc: Sizes, path: Path, size: U64): (r: (Sizes, Sizes))
  {
    if Verdict(sel.Keys, exc.Keys, path) then
      if path in sel then (sel - {path}, exc) else (sel, exc[path := size])
    else if path in exc then (sel, exc - {path})
    else (sel[path := size], exc)
  }

  lemma ToggleIsTheChange(sel: Sizes, exc: Sizes, path: Path, size: U64)
    requires Disjoint(sel, exc)
    ensures var c, t := Changed(sel, exc, path, size), Toggled(sel, exc, path, size); SameVerdicts(c.0, c.1, t.0, t.1)
  {
    hide Verdict, Inherited, HasSelectedAncestor, WithoutCovered, WithoutBare;
    var c := Changed(sel, exc, path, size);
    if Verdict(sel.Keys, exc.Keys, path) && path in sel {
      BareKeepsVerdicts(sel - {path}, exc);
    } else if !Verdict(sel.Keys, exc.Keys, path) && path !in exc {
      PruningKeepsVerdicts(c.0, exc, StrictlyInside(c.0, path));
    }
  }

  /** The same entries with the sizes they had. */
  ghost predicate SizesKept(m: Sizes, m': Sizes)
  {
    forall p :: p in m && p in m' ==> m'[p] == m[p]
  }

  lemma SameVerdictsInherit(sel: Sizes, exc: Sizes, sel': Sizes, exc': Sizes)
    requires SameVerdicts(sel, exc, sel', exc')
    ensures forall p :: Inherited(sel'.Keys, exc'.Keys, p) == Inherited(sel.Keys, exc.Keys, p)
  {
    hide Verdict;
    forall p ensures Inherited(sel'.Keys, exc'.Keys, p) == Inherited(sel.Keys, exc.Keys, p) {
      if p != [] { assert Verdict(sel.Keys, exc.Keys, Parent(p)) == Verdict(sel'.Keys, exc'.Keys, Parent(p)); }
    }
  }

  /**
   * The entries after a toggle: an inclusion taken back also takes every exclusion with no inclusion left above it; an
   * inclusion added takes every other inclusion inside it that would be inherited anyway; nothing else goes, and no size changes.
   */
  lemma {:induction false} ToggleTidies(sel: Sizes, exc: Sizes, path: Path, size: U64)
    requires Disjoint(sel, exc)
    ensures var t := Toggled(sel, exc, path, size);
      var on, own := Verdict(sel.Keys, exc.Keys, path), path in sel || path in exc;
      && SizesKept(sel, t.0) && SizesKept(exc, t.1)
      && (!own && on ==> t.0 == sel && t.1.Keys == exc.Keys + {path} && t.1[path] == size)
      && (!own && !on ==> path in t.0 && t.0[path] == size && t.1 == exc)
      && (!own && !on ==> forall p :: p != path ==> (p in t.0 <==> p in sel && (Within(p, path) ==> !Inherited(t.0.Keys, t.1.Keys, p))))
      && (own && on ==> t.0.Keys == sel.Keys - {path} && forall e :: e in t.1 <==> e in exc && HasSelectedAncestor(t.0.Keys, e))
      && (own && !on ==> t.0 == sel && t.1.Keys == exc.Keys - {path})
  {
    hide HasSelectedAncestor, Inherited, Within;
    var t := Toggled(sel, exc, path, size);
    if !Verdict(sel.Keys, exc.Keys, path) && path !in exc {
      var more := sel[path := size];
      PruningKeepsVerdicts(more, exc, StrictlyInside(more, path));
      SameVerdictsInherit(more, exc, t.0, exc);
    }
  }

  /** Some entry other than the toggled one decides the verdict: one strictly below it on the way to q. */
  ghost predicate DecidedBelow(sel: Sizes, exc: Sizes, path: Path, q: Path)
  {
    exists k :: |path| < k <= |q| && (q[..k] in sel || q[..k] in exc)
  }

  /** Changing one entry moves the verdict of the paths that entry decides, together, and of no other. */
  lemma {:induction false} ChangeReaches(sel: Sizes, exc: Sizes, path: Path, size: U64, q: Path)
    ensures var c := Changed(sel, exc, path, size);
      Verdict(c.0.Keys, c.1.Keys, q) == (if Within(q, path) && !DecidedBelow(sel, exc, path, q)
                                         then Verdict(c.0.Keys, c.1.Keys, path) else Verdict(sel.Keys, exc.Keys, q))
    decreases |q|
  {
    var c := Changed(sel, exc, path, size);
    assert q[..|q|] == q;
    if q != [] && q != path {
      var r := Parent(q);
      ChangeReaches(sel, exc, path, size, r);
      assert forall k :: 0 <= k <= |r| ==> r[..k] == q[..k];
      assert Within(q, path) ==> Within(r, path);
      assert Within(r, path) ==> Within(q, path);
    }
  }

  /**
   * A toggle changes the verdict on its path exactly when the path has no entry of its own, or
   * the verdict it would inherit differs from the one it has.
   */
  lemma {:induction false} ToggleFlips(sel: Sizes, exc: Sizes, path: Path, size: U64)
    requires Disjoint(sel, exc)
    ensures var t := Toggled(sel, exc, path, size); var was := Verdict(sel.Keys, exc.Keys, path);
      Verdict(t.0.Keys, t.1.Keys, path) != was <==>
      (path !in sel && path !in exc) || Inherited(sel.Keys, exc.Keys, path) != was
  {
    var c, t := Changed(sel, exc, path, size), Toggled(sel, exc, path, size);
    ToggleIsTheChange(sel, exc, path, size);
    assert Verdict(c.0.Keys, c.1.Keys, path) == Verdict(t.0.Keys, t.1.Keys, path);
    if path != [] {
      ChangeReaches(sel, exc, path, size, Parent(path));
    }
  }

  /** Select a, exclude a/b/c, then a/b: toggling a/b/c again leaves it unselected. */
  lemma ToggleCanStick(a: Component, b: Component, c: Component)
    ensures var one := Toggled(map[], map[], [a], 0);
      var two := Toggled(one.0, one.1, [a, b, c], 0);
      var three := Toggled(two.0, two.1, [a, b], 0);
      var four := Toggled(three.0, three.1, [a, b, c], 0);
      !Verdict(three.0.Keys, three.1.Keys, [a, b, c]) && !Verdict(four.0.Keys, four.1.Keys, [a, b, c])
  {
    hide WithoutBare;
    var none: Sizes, root: Path, x, y, z := map[], [], [a], [a, b], [a, b, c];
    assert Parent(z) == y && Parent(y) == x && Parent(x) == root;
    var one := Toggled(none, none, x, 0);
    assert !Verdict(none.Keys, none.Keys, root);
    assert one.0 == map[x := 0 as U64] by { assert StrictlyInside(map[x := 0 as U64], x) == {}; }
    assert one.1 == none;
    var two := Toggled(one.0, one.1, z, 0);
    assert Verdict(one.0.Keys, one.1.Keys, y);
    assert two.0 == one.0 && two.1 == map[z := 0 as U64];
    var three := Toggled(two.0, two.1, y, 0);
    assert Verdict(two.0.Keys, two.1.Keys, y);
    assert three.0 == one.0 && three.1.Keys == {y, z};
    assert !Verdict(three.0.Keys, three.1.Keys, z);
    var four := Toggled(three.0, three.1, z, 0);
    assert four.0 == one.0 && y in four.1;
  }

  // ---------------------------------------------------------------- a batch of sibling rows

  ghost function RowSet(sel: Sizes, exc: Sizes, path: Path, size: U64, on: bool): (r: (Sizes, Sizes))
  {
    if on then
      var less := exc - {path};
      (if Verdict(sel.Keys, less.Keys, path) then sel else sel[path := size], less)
    else if path in sel then (sel - {path}, exc)
    else (sel, if Verdict(sel.Keys, exc.Keys, path) then exc[path := size] else exc)
  }

  ghost function RowsSet(sel: Sizes, exc: Sizes, paths: seq<Path>, sizes: seq<U64>, on: bool): (r: (Sizes, Sizes))
    requires |paths| == |sizes|
    decreases |paths|
  {
    if paths == [] then (sel, exc)
    else
      var n := |paths| - 1;
      var before := RowsSet(sel, exc, paths[..n], sizes[..n], on);
      RowSet(before.0, before.1, paths[n], sizes[n], on)
  }

  ghost function Tidied(sel: Sizes, exc: Sizes): (r: (Sizes, Sizes))
  {
    var kept := WithoutCovered(sel, exc, sel.Keys);
    (kept, WithoutBare(kept, exc))
  }

  ghost function ManySet(sel: Sizes, exc: Sizes, paths: seq<Path>, sizes: seq<U64>, on: bool): (r: (Sizes, Sizes))
  {
    if paths == [] || |paths| != |sizes| then (sel, exc)
    else
      var rows := RowsSet(sel, exc, paths, sizes, on);
      Tidied(rows.0, rows.1)
  }

  lemma {:induction false} RowsStayDisjoint(sel: Sizes, exc: Sizes, paths: seq<Path>, sizes: seq<U64>, on: bool)
    requires |paths| == |sizes| && Disjoint(sel, exc)
    ensures var r := RowsSet(sel, exc, paths, sizes, on); Disjoint(r.0, r.1)
    decreases |paths|
  {
    hide Verdict;
    if paths != [] {
      var n := |paths| - 1;
      RowsStayDisjoint(sel, exc, paths[..n], sizes[..n], on);
    }
  }

  lemma ManyStayDisjoint(sel: Sizes, exc: Sizes, paths: seq<Path>, sizes: seq<U64>, on: bool)
    requires Disjoint(sel, exc)
    ensures var r := ManySet(sel, exc, paths, sizes, on); Disjoint(r.0, r.1)
  {
    hide RowsSet, Inherited, HasSelectedAncestor;
    if |paths| == |sizes| { RowsStayDisjoint(sel, exc, paths, sizes, on); }
  }

  /** Tidying the maps changes no verdict. */
  lemma TidyKeepsVerdicts(sel: Sizes, exc: Sizes)
    requires Disjoint(sel, exc)
    ensures var r := Tidied(sel, exc); SameVerdicts(sel, exc, r.0, r.1)
  {
    hide Verdict, Inherited, HasSelectedAncestor;
    PruningKeepsVerdicts(sel, exc, sel.Keys);
    BareKeepsVerdicts(WithoutCovered(sel, exc, sel.Keys), exc);
  }

  /** The entries of a batch: those there before, with their sizes, and those of the rows, with theirs. */
  ghost predicate FromRows(m: Sizes, m': Sizes, paths: seq<Path>, sizes: seq<U64>)
    requires |paths| == |sizes|
  {
    forall p :: p in m' ==> (p in m && m'[p] == m[p]) || exists i :: 0 <= i < |paths| && paths[i] == p && m'[p] == sizes[i]
  }

  lemma {:induction false} RowsAreFrom(sel: Sizes, exc: Sizes, paths: seq<Path>, sizes: seq<U64>, on: bool)
    requires |paths| == |sizes|
    ensures var r := RowsSet(sel, exc, paths, sizes, on); FromRows(sel, r.0, paths, sizes) && FromRows(exc, r.1, paths, sizes)
    decreases |paths|
  {
    hide Verdict;
    if paths != [] {
      var n := |paths| - 1;
      RowsAreFrom(sel, exc, paths[..n], sizes[..n], on);
      var before, r := RowsSet(sel, exc, paths[..n], sizes[..n], on), RowsSet(sel, exc, paths, sizes, on);
      LaterRow(sel, before.0, r.0, paths, sizes);
      LaterRow(exc, before.1, r.1, paths, sizes);
    }
  }

  lemma LaterRow(m: Sizes, before: Sizes, after: Sizes, paths: seq<Path>, sizes: seq<U64>)
    requires |paths| == |sizes| > 0 && FromRows(m, before, paths[..|paths| - 1], sizes[..|paths| - 1])
    requires forall p :: p in after ==> (p in before && after[p] == before[p]) || (p == paths[|paths| - 1] && after[p] == sizes[|paths| - 1])
    ensures FromRows(m, after, paths, sizes)
  {
    var n := |paths| - 1;
    forall p | p in after ensures (p in m && after[p] == m[p]) || exists i :: 0 <= i < |paths| && paths[i] == p && after[p] == sizes[i] {
      if p in before && after[p] == before[p] && !(p in m && after[p] == m[p]) {
        var i :| 0 <= i < n && paths[..n][i] == p && before[p] == sizes[..n][i];
        assert paths[i] == p && sizes[i] == after[p];
      }
    }
  }

  /** After a batch no inclusion is left that is inherited anyway and no exclusion with nothing selected above it; every size is one given. */
  lemma {:induction false} BatchTidies(sel: Sizes, exc: Sizes, paths: seq<Path>, sizes: seq<U64>, on: bool)
    requires |paths| == |sizes| > 0 && Disjoint(sel, exc)
    ensures var r := ManySet(sel, exc, paths, sizes, on);
      && FromRows(sel, r.0, paths, sizes) && FromRows(exc, r.1, paths, sizes)
      && (forall p :: p in r.0 ==> !Inherited(r.0.Keys, r.1.Keys, p))
      && (forall e :: e in r.1 ==> HasSelectedAncestor(r.0.Keys, e))
  {
    hide Verdict, HasSelectedAncestor, Inherited, RowsSet;
    var rows, r := RowsSet(sel, exc, paths, sizes, on), ManySet(sel, exc, paths, sizes, on);
    RowsAreFrom(sel, exc, paths, sizes, on);
    RowsStayDisjoint(sel, exc, paths, sizes, on);
    TidyKeepsVerdicts(rows.0, rows.1);
    SameVerdictsInherit(rows.0, rows.1, r.0, r.1);
  }

  ghost predicate Siblings(paths: seq<Path>)
  {
    && (forall i :: 0 <= i < |paths| ==> paths[i] != [])
    && (forall i, j :: 0 <= i < |paths| && 0 <= j < |paths| ==> Parent(paths[i]) == Parent(paths[j]))
    && (forall i, j :: 0 <= i < j < |paths| ==> paths[i] != paths[j])
  }

  lemma {:induction false} RowElsewhere(sel: Sizes, exc: Sizes, path: Path, size: U64, on: bool, q: Path)
    requires !Within(q, path)
    ensures var r := RowSet(sel, exc, path, size, on);
      Verdict(r.0.Keys, r.1.Keys, q) == Verdict(sel.Keys, exc.Keys, q) && (q in r.0 <==> q in sel) && (q in r.1 <==> q in exc)
    decreases |q|
  {
    if q != [] {
      assert Within(Parent(q), path) ==> Within(q, path);
      RowElsewhere(sel, exc, path, size, on, Parent(q));
    }
  }

  /** A path none of the rows holds keeps its entries and its verdict. */
  lemma {:induction false} RowsElsewhere(sel: Sizes, exc: Sizes, paths: seq<Path>, sizes: seq<U64>, on: bool, q: Path)
    requires |paths| == |sizes| && forall i :: 0 <= i < |paths| ==> !Within(q, paths[i])
    ensures var r := RowsSet(sel, exc, paths, sizes, on);
      Verdict(r.0.Keys, r.1.Keys, q) == Verdict(sel.Keys, exc.Keys, q) && (q in r.0 <==> q in sel) && (q in r.1 <==> q in exc)
    decreases |paths|
  {
    hide Verdict, Within;
    if paths != [] {
      var n := |paths| - 1;
      RowsElsewhere(sel, exc, paths[..n], sizes[..n], on, q);
      var before := RowsSet(sel, exc, paths[..n], sizes[..n], on);
      RowElsewhere(before.0, before.1, paths[n], sizes[n], on, q);
    }
  }

  lemma {:induction false} RowVerdict(sel: Sizes, exc: Sizes, path: Path, size: U64, on: bool)
    requires Disjoint(sel, exc) && path != []
    ensures var r := RowSet(sel, exc, path, size, on);
      Verdict(r.0.Keys, r.1.Keys, path) == (on || (path in sel && Inherited(sel.Keys, exc.Keys, path)))
  {
    RowElsewhere(sel, exc, path, size, on, Parent(path));
  }

  lemma {:induction false} SiblingRows(sel: Sizes, exc: Sizes, paths: seq<Path>, sizes: seq<U64>, on: bool, i: nat)
    requires |paths| == |sizes| && Disjoint(sel, exc) && Siblings(paths) && i < |paths|
    ensures var r := RowsSet(sel, exc, paths, sizes, on);
      Verdict(r.0.Keys, r.1.Keys, paths[i]) == (on || (paths[i] in sel && Inherited(sel.Keys, exc.Keys, paths[i])))
    decreases |paths|
  {
    hide Verdict;
    var n := |paths| - 1;
    var before := RowsSet(sel, exc, paths[..n], sizes[..n], on);
    var p := paths[i];
    assert Siblings(paths[..n]);
    RowsStayDisjoint(sel, exc, paths[..n], sizes[..n], on);
    if i < n {
      SiblingRows(sel, exc, paths[..n], sizes[..n], on, i);
      SiblingsAreApart(p, paths[n]);
      RowElsewhere(before.0, before.1, paths[n], sizes[n], on, p);
    } else {
      forall j | 0 <= j < n ensures !Within(p, paths[j]) && !Within(Parent(p), paths[j]) {
        SiblingsAreApart(p, paths[j]);
      }
      RowsElsewhere(sel, exc, paths[..n], sizes[..n], on, p);
      RowsElsewhere(sel, exc, paths[..n], sizes[..n], on, Parent(p));
      RowVerdict(before.0, before.1, p, sizes[n], on);
    }
  }

  lemma SiblingsAreApart(p: Path, q: Path)
    requires p != [] && q != [] && Parent(p) == Parent(q) && p != q
    ensures !Within(p, q) && !Within(Parent(p), q)
  {
    assert p == Parent(p) + [p[|p| - 1]] && q == Parent(q) + [q[|q| - 1]];
  }

  /**
   * A batch of sibling rows ends as asked: always when selecting; when clearing, exactly the rows
   * whose own inclusion was not inherited anyway. Paths outside the rows keep their verdict.
   */
  lemma BatchSetsRows(sel: Sizes, exc: Sizes, paths: seq<Path>, sizes: seq<U64>, on: bool)
    requires |paths| == |sizes| && Disjoint(sel, exc) && Siblings(paths)
    ensures var r := ManySet(sel, exc, paths, sizes, on);
      && (forall i :: 0 <= i < |paths| ==>
        (Verdict(r.0.Keys, r.1.Keys, paths[i]) == on <==> on || !(paths[i] in sel && Inherited(sel.Keys, exc.Keys, paths[i]))))
      && (forall q :: (forall i :: 0 <= i < |paths| ==> !Within(q, paths[i])) ==>
        Verdict(r.0.Keys, r.1.Keys, q) == Verdict(sel.Keys, exc.Keys, q))
  {
    hide Verdict, Inherited, RowsSet, Tidied, Within;
    var r := ManySet(sel, exc, paths, sizes, on);
    if paths != [] {
      var rows := RowsSet(sel, exc, paths, sizes, on);
      RowsStayDisjoint(sel, exc, paths, sizes, on);
      TidyKeepsVerdicts(rows.0, rows.1);
      forall i | 0 <= i < |paths|
        ensures Verdict(r.0.Keys, r.1.Keys, paths[i]) == on <==> on || !(paths[i] in sel && Inherited(sel.Keys, exc.Keys, paths[i]))
      {
        SiblingRows(sel, exc, paths, sizes, on, i);
      }
      forall q | forall i :: 0 <= i < |paths| ==> !Within(q, paths[i])
        ensures Verdict(r.0.Keys, r.1.Keys, q) == Verdict(sel.Keys, exc.Keys, q)
      {
        RowsElsewhere(sel, exc, paths, sizes, on, q);
      }
    }
  }

  /** Select a, exclude a/b, select a/b/c, include a/b again: clearing a/b/c as a row then leaves it selected. */
  lemma ClearingCanStick(a: Component, b: Component, c: Component)
    ensures var one := Toggled(map[], map[], [a], 0);
      var two := Toggled(one.0, one.1, [a, b], 0);
      var three := Toggled(two.0, two.1, [a, b, c], 0);
      var four := Toggled(three.0, three.1, [a, b], 0);
      var five := ManySet(four.0, four.1, [[a, b, c]], [0], false);
      Verdict(four.0.Keys, four.1.Keys, [a, b, c]) && Verdict(five.0.Keys, five.1.Keys, [a, b, c])
  {
    hide WithoutBare;
    var none: Sizes, root: Path, x, y, z := map[], [], [a], [a, b], [a, b, c];
    assert Parent(z) == y && Parent(y) == x && Parent(x) == root;
    assert !Verdict(none.Keys, none.Keys, root);
    var one := Toggled(none, none, x, 0);
    assert one.0 == map[x := 0 as U64] by { assert StrictlyInside(map[x := 0 as U64], x) == {}; }
    assert one.1 == none;
    var two := Toggled(one.0, one.1, y, 0);
    assert Verdict(one.0.Keys, one.1.Keys, x);
    assert two.0 == one.0 && two.1 == map[y := 0 as U64];
    var three := Toggled(two.0, two.1, z, 0);
    assert !Verdict(two.0.Keys, two.1.Keys, y);
    assert StrictlyInside(two.0[z := 0], z) == {};
    assert three.0 == map[x := 0 as U64, z := 0 as U64] && three.1 == two.1;
    var four := Toggled(three.0, three.1, y, 0);
    assert !Verdict(three.0.Keys, three.1.Keys, y);
    assert four.0 == three.0 && four.1 == none;
    assert Verdict(four.0.Keys, four.1.Keys, x) && Verdict(four.0.Keys, four.1.Keys, y);
    assert Siblings([z]);
    BatchSetsRows(four.0, four.1, [z], [0], false);
    assert Inherited(four.0.Keys, four.1.Keys, z);
    assert [z][0] == z;
  }
}
