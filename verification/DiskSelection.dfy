/** The selection state the user edits, and the targets it resolves to on a disk. */
module DiskSelection {
  import opened Words
  import opened RootCoalescing
  import opened Selection

  // ---------------------------------------------------------------- what resolves to a target

  /** What a look at a path finds: a directory with the names it lists, or anything else. */
  datatype Node = Directory(listed: seq<Component>) | Other

  type Disk = map<Path, Node>

  predicate Lists(disk: Disk, p: Path, c: Component)
  {
    p in disk && disk[p].Directory? && c in disk[p].listed
  }

  /** Some exclusion lies strictly inside the path, so it cannot be taken whole. */
  ghost predicate Splits(exc: set<Path>, p: Path)
  {
    exists e :: e in exc && e != p && Within(e, p)
  }

  /** Every step from depth k down to the target goes through a split directory that lists the next name. */
  ghost predicate Descends(disk: Disk, exc: set<Path>, t: Path, k: nat)
  {
    forall j :: k <= j < |t| ==> t[..j] !in exc && Splits(exc, t[..j]) && Lists(disk, t[..j], t[j])
  }

  ghost predicate TargetFrom(disk: Disk, exc: set<Path>, root: Path, t: Path)
  {
    root <= t && Descends(disk, exc, t, |root|) && t !in exc && !Splits(exc, t)
  }

  ghost predicate IsTarget(disk: Disk, sel: set<Path>, exc: set<Path>, t: Path)
  {
    exists root :: root in sel && TargetFrom(disk, exc, root, t)
  }

  /** A path of a readable tree without links: each directory above it lists the next name. */
  ghost predicate Exists(disk: Disk, q: Path)
  {
    forall j :: 0 <= j < |q| ==> Lists(disk, q[..j], q[j])
  }

  ghost predicate UnderTarget(disk: Disk, sel: set<Path>, exc: set<Path>, q: Path)
  {
    exists t :: IsTarget(disk, sel, exc, t) && Within(q, t)
  }

  /** Whatever the disk holds or hides, nothing excluded is ever at or under a target. */
  lemma {:induction false} TargetsAreSafe(disk: Disk, sel: set<Path>, exc: set<Path>, q: Path)
    requires UnderTarget(disk, sel, exc, q)
    ensures Verdict(sel, exc, q) && !Splits(exc, q)
  {
    var t :| IsTarget(disk, sel, exc, t) && Within(q, t);
    var root :| root in sel && TargetFrom(disk, exc, root, t);
    forall j | |root| <= j <= |q| ensures q[..j] !in exc {
      if j <= |t| {
        assert q[..j] == t[..j];
        assert t[..|t|] == t;
      } else {
        assert Within(q[..j], t);
      }
    }
    assert q[..|root|] == root;
    assert IncludedFrom(sel, exc, q, |root|);
    VerdictMeans(sel, exc, q);
    if e :| e in exc && e != q && Within(e, q) {
      assert Within(e, t) && e != t;
    }
  }

  /** The outermost unsplit path on the way down to an included path is a target. */
  lemma IncludedIsUnderTarget(disk: Disk, sel: set<Path>, exc: set<Path>, q: Path, k: nat)
    requires Exists(disk, q) && !Splits(exc, q) && IncludedFrom(sel, exc, q, k)
    ensures UnderTarget(disk, sel, exc, q)
  {
    hide Splits, Lists;
    assert q[..|q|] == q;
    var m := k;
    while Splits(exc, q[..m])
      invariant k <= m <= |q|
      invariant forall j :: k <= j < m ==> Splits(exc, q[..j])
      decreases |q| - m
    {
      m := m + 1;
    }
    var t := q[..m];
    assert forall j :: 0 <= j <= m ==> t[..j] == q[..j];
    assert t[..m] == t;
    assert TargetFrom(disk, exc, q[..k], t);
    assert IsTarget(disk, sel, exc, t);
  }

  /** Resolution is exact: the paths at or under a target are the selected ones with no exclusion inside. */
  lemma {:induction false} ResolutionIsExact(disk: Disk, sel: set<Path>, exc: set<Path>, q: Path)
    requires Exists(disk, q)
    ensures UnderTarget(disk, sel, exc, q) <==> Verdict(sel, exc, q) && !Splits(exc, q)
  {
    if UnderTarget(disk, sel, exc, q) { TargetsAreSafe(disk, sel, exc, q); }
    if Verdict(sel, exc, q) && !Splits(exc, q) {
      VerdictMeans(sel, exc, q);
      var k: nat :| IncludedFrom(sel, exc, q, k);
      IncludedIsUnderTarget(disk, sel, exc, q, k);
    }
  }

  /** A split directory's targets are those of the children it lists. */
  lemma SplitTargets(disk: Disk, exc: set<Path>, path: Path, t: Path)
    requires path !in exc && Splits(exc, path)
    ensures TargetFrom(disk, exc, path, t) <==> exists c :: Lists(disk, path, c) && TargetFrom(disk, exc, path + [c], t)
  {
    hide Splits, Lists;
    if TargetFrom(disk, exc, path, t) {
      assert t != path && t[..|path|] == path;
      var c := t[|path|];
      assert t[..|path| + 1] == path + [c];
      assert Lists(disk, path, c) && TargetFrom(disk, exc, path + [c], t);
    }
    if c :| Lists(disk, path, c) && TargetFrom(disk, exc, path + [c], t) {
      assert t[..|path| + 1] == path + [c] && t[|path|] == c;
      assert t[..|path|] == (path + [c])[..|path|] == path;
      assert Descends(disk, exc, t, |path|);
    }
  }

  lemma UnsplitTarget(disk: Disk, exc: set<Path>, path: Path, t: Path)
    requires path in exc || !Splits(exc, path)
    ensures TargetFrom(disk, exc, path, t) <==> t == path && path !in exc
  {
    assert path <= t ==> t[..|path|] == path;
  }

  ghost predicate DeepestIs(exc: set<Path>, bound: nat)
  {
    forall e :: e in exc ==> |e| <= bound
  }

  lemma {:induction false} SomeDeepest(exc: set<Path>) returns (bound: nat)
    ensures DeepestIs(exc, bound)
  {
    if exc == {} {
      bound := 0;
    } else {
      var e :| e in exc;
      bound := SomeDeepest(exc - {e});
      if bound < |e| { bound := |e|; }
    }
  }

  /** Removing one inclusion leaves the verdict of the paths outside it. */
  lemma {:induction false} RemovalElsewhere(sel: set<Path>, exc: set<Path>, p: Path, q: Path)
    requires !Within(q, p)
    ensures Verdict(sel - {p}, exc, q) == Verdict(sel, exc, q)
    decreases |q|
  {
    if q != [] {
      assert Within(Parent(q), p) ==> Within(q, p);
      RemovalElsewhere(sel, exc, p, Parent(q));
    }
  }

  /** Partway through pruning, a path without its own entry has the verdict it inherited at the start. */
  lemma {:induction false} OwnEntryAside(raw: Sizes, exc: Sizes, now: Sizes, p: Path)
    requires SameVerdicts(raw, exc, now, exc) && p !in exc
    ensures Verdict(now.Keys - {p}, exc.Keys, p) == Inherited(raw.Keys, exc.Keys, p)
  {
    if p != [] { RemovalElsewhere(now.Keys, exc.Keys, p, Parent(p)); }
  }

  /** Nothing selected above means nothing inherited, then and at the start. */
  lemma BareInheritsNothing(raw: Sizes, exc: Sizes, now: Sizes, p: Path)
    requires SameVerdicts(raw, exc, now, exc) && !HasSelectedAncestor(now.Keys, p)
    ensures !Inherited(raw.Keys, exc.Keys, p)
  {
    if p != [] { NothingAbove(now.Keys, exc.Keys, Parent(p), p); }
  }

  // ---------------------------------------------------------------- the state

  class DiskSelectionState {
    var selected: Sizes
    var excluded: Sizes

    constructor ()
      ensures selected == map[] && excluded == map[]
    {
      selected, excluded := map[], map[];
    }

    method IsSelected(path: Path) returns (on: bool)
      ensures on == Verdict(selected.Keys, excluded.Keys, path)
    {
      var p := path;
      while true
        invariant Verdict(selected.Keys, excluded.Keys, p) == Verdict(selected.Keys, excluded.Keys, path)
        decreases |p|
      {
        if p in excluded { return false; }
        if p in selected { return true; }
        if p == [] { return false; }
        p := Parent(p);
      }
    }

    method FindSelectedAncestor(path: Path) returns (found: bool)
      ensures found == HasSelectedAncestor(selected.Keys, path)
    {
      var p := path;
      while p != []
        invariant |p| <= |path| && p == path[..|p|]
        invariant forall k :: |p| <= k < |path| ==> path[..k] !in selected
      {
        var parent := Parent(p);
        assert parent == path[..|parent|];
        if parent in selected { return true; }
        p := parent;
      }
      found := false;
    }

    /** The caller passes the verdict on the directory above; the root is its own. */
    method ChildSelected(path: Path, parentSelected: bool) returns (on: bool)
      requires parentSelected == Verdict(selected.Keys, excluded.Keys, if path == [] then path else Parent(path))
      ensures on == Verdict(selected.Keys, excluded.Keys, path)
    {
      if path in excluded { return false; }
      if path in selected { return true; }
      on := parentSelected;
    }

    /** Drops the exclusions nothing selected holds any more. */
    method DropBareExclusions()
      modifies this`excluded
      ensures excluded == WithoutBare(selected, old(excluded))
    {
      hide HasSelectedAncestor;
      var todo := excluded.Keys;
      while todo != {}
        invariant todo <= old(excluded).Keys
        invariant excluded == map e | e in old(excluded) && (e in todo || HasSelectedAncestor(selected.Keys, e)) :: old(excluded)[e]
      {
        var e :| e in todo;
        var held := FindSelectedAncestor(e);
        if !held { excluded := excluded - {e}; }
        todo := todo - {e};
      }
    }

    /** Looks at the inclusions of `todo` once each, in any order, and drops those covered without their own entry. */
    method DropCovered(names: set<Path>, askFirst: bool)
      requires Disjoint(selected, excluded) && names <= selected.Keys
      modifies this`selected
      ensures selected == WithoutCovered(old(selected), excluded, names)
    {
      hide Verdict, Inherited, HasSelectedAncestor;
      ghost var raw := selected;
      var todo := names;
      assert selected == WithoutCovered(raw, excluded, names - todo);
      while todo != {}
        invariant todo <= names
        invariant selected == WithoutCovered(raw, excluded, names - todo)
      {
        var p :| p in todo;
        PruningKeepsVerdicts(raw, excluded, names - todo);
        var look := true;
        if askFirst {
          look := FindSelectedAncestor(p);
          if !look { BareInheritsNothing(raw, excluded, selected, p); }
        }
        if look {
          OwnEntryAside(raw, excluded, selected, p);
          var size := selected[p];
          selected := selected - {p};
          var covered := IsSelected(p);
          if !covered { selected := selected[p := size]; }
        }
        todo := todo - {p};
      }
      assert names - todo == names;
    }

    /** Flips the verdict on one path by its own entry, then drops the entries that no longer say anything. */
    method Toggle(path: Path, size: U64)
      requires Disjoint(selected, excluded)
      modifies this
      ensures (selected, excluded) == Toggled(old(selected), old(excluded), path, size)
      ensures Disjoint(selected, excluded)
    {
      ToggleKeepsDisjoint(selected, excluded, path, size);
      hide Verdict, WithoutCovered, WithoutBare;
      var on := IsSelected(path);
      if on {
        if path in selected {
          selected := selected - {path};
          DropBareExclusions();
        } else {
          excluded := excluded[path := size];
        }
      } else if path in excluded {
        excluded := excluded - {path};
      } else {
        selected := selected[path := size];
        DropCovered(StrictlyInside(selected, path), false);
      }
    }

    method Set(path: Path, size: U64, on: bool)
      requires Disjoint(selected, excluded)
      modifies this
      ensures Disjoint(selected, excluded)
      ensures (selected, excluded) == if Verdict(old(selected).Keys, old(excluded).Keys, path) == on then (old(selected), old(excluded))
                                      else Toggled(old(selected), old(excluded), path, size)
    {
      var now := IsSelected(path);
      if now != on { Toggle(path, size); }
    }

    /** Applies one state to a batch of rows, then tidies the maps once. */
    method SetMany(paths: seq<Path>, sizes: seq<U64>, on: bool)
      requires Disjoint(selected, excluded)
      modifies this
      ensures (selected, excluded) == ManySet(old(selected), old(excluded), paths, sizes, on)
      ensures Disjoint(selected, excluded)
    {
      ManyStayDisjoint(selected, excluded, paths, sizes, on);
      if |paths| == 0 || |paths| != |sizes| { return; }
      hide Verdict, WithoutCovered, WithoutBare, HasSelectedAncestor;
      for i := 0 to |paths|
        invariant (selected, excluded) == RowsSet(old(selected), old(excluded), paths[..i], sizes[..i], on)
      {
        var path := paths[i];
        assert paths[..i + 1][..i] == paths[..i] && sizes[..i + 1][..i] == sizes[..i];
        SetRow(path, sizes[i], on);
      }
      assert paths[..|paths|] == paths && sizes[..|paths|] == sizes;
      RowsStayDisjoint(old(selected), old(excluded), paths, sizes, on);
      DropCovered(selected.Keys, true);
      DropBareExclusions();
    }

    /** One row of a batch. */
    method SetRow(path: Path, size: U64, on: bool)
      modifies this
      ensures (selected, excluded) == RowSet(old(selected), old(excluded), path, size, on)
    {
      if on {
        excluded := excluded - {path};
        var already := IsSelected(path);
        if already { return; }
        selected := selected[path := size];
        return;
      }
      if path in selected {
        selected := selected - {path};
        return;
      }
      var covered := IsSelected(path);
      if covered { excluded := excluded[path := size]; }
    }

    /** Splits one path around the exclusions inside it; an unreadable branch is left out. */
    method Expand(disk: Disk, path: Path, ghost bound: nat) returns (out: seq<Path>)
      requires DeepestIs(excluded.Keys, bound)
      ensures forall t :: t in out <==> TargetFrom(disk, excluded.Keys, path, t)
      decreases if bound < |path| then 0 else bound + 1 - |path|
    {
      hide TargetFrom;
      out := [];
      if path in excluded {
        forall t ensures !TargetFrom(disk, excluded.Keys, path, t) { UnsplitTarget(disk, excluded.Keys, path, t); }
        return;
      }
      var split := AnyInside(path);
      if !split {
        forall t ensures TargetFrom(disk, excluded.Keys, path, t) <==> t == path { UnsplitTarget(disk, excluded.Keys, path, t); }
        return [path];
      }
      forall t
        ensures TargetFrom(disk, excluded.Keys, path, t) <==> exists c :: Lists(disk, path, c) && TargetFrom(disk, excluded.Keys, path + [c], t)
      {
        SplitTargets(disk, excluded.Keys, path, t);
      }
      if path !in disk || !disk[path].Directory? { return; }
      var names := disk[path].listed;
      DeeperExists(excluded.Keys, path, bound);
      for i := 0 to |names|
        invariant forall t :: t in out <==> exists k :: 0 <= k < i && TargetFrom(disk, excluded.Keys, path + [names[k]], t)
      {
        var more := Expand(disk, path + [names[i]], bound);
        out := out + more;
      }
    }

    /** Whether an exclusion lies strictly inside the path: looks at each in any order. */
    method AnyInside(path: Path) returns (split: bool)
      ensures split == Splits(excluded.Keys, path)
    {
      var todo := excluded.Keys;
      while todo != {}
        invariant todo <= excluded.Keys
        invariant forall e :: e in excluded && e !in todo ==> e == path || !Within(e, path)
      {
        var e :| e in todo;
        if e != path && Within(e, path) { return true; }
        todo := todo - {e};
      }
      split := false;
    }

    /** The targets of every selected root. */
    method ResolveTargets(disk: Disk) returns (out: seq<Path>)
      ensures forall t :: t in out <==> IsTarget(disk, selected.Keys, excluded.Keys, t)
    {
      hide TargetFrom;
      out := [];
      ghost var bound := SomeDeepest(excluded.Keys);
      var todo := selected.Keys;
      while todo != {}
        invariant todo <= selected.Keys
        invariant forall t :: t in out <==> exists root :: root in selected && root !in todo && TargetFrom(disk, excluded.Keys, root, t)
      {
        var root :| root in todo;
        var more := Expand(disk, root, bound);
        out := out + more;
        todo := todo - {root};
      }
    }
  }

  lemma DeeperExists(exc: set<Path>, p: Path, bound: nat)
    requires Splits(exc, p) && DeepestIs(exc, bound)
    ensures |p| < bound
  {
    var e :| e in exc && e != p && Within(e, p);
  }
}
