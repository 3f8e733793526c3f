/** Where a node lies, and the coverage gaps a grafted scan hands on to its new place. */
module Coverage {
  import opened Words
  import opened Forest
  import opened Slots
  import opened Ancestors
  import opened ChildRows

  /** A cleaned path by its names, from the file-system root or, when the place is unknown, from nowhere. */
  datatype Place = Place(rooted: bool, names: seq<Name>)

  const PATH_LIMIT: nat := 513

  /** A name that may be joined into a path. */
  predicate Joinable(name: Name)
  {
    name != [] && name != [46] && name != [46, 46] && 47 !in name && 92 !in name
  }

  function Entered(base: Option<seq<Name>>, name: Name): (r: Option<seq<Name>>)
  {
    if base.None? || !Joinable(name) then None else Some(base.value + [name])
  }

  /** The names from the root down to a node, unless the parents do not lead there within the limit or a name is unsafe. */
  function PathFrom(s: Arena, cur: nat, fuel: nat): (r: Option<seq<Name>>)
    decreases fuel
  {
    if fuel == 0 then None
    else if cur == 0 then Some([])
    else if !Valid(s, cur) || s[cur].parent == cur then None
    else Entered(PathFrom(s, s[cur].parent, fuel - 1), s[cur].name)
  }

  function PathOf(s: Arena, i: nat): (r: Option<seq<Name>>)
  {
    if Valid(s, i) then PathFrom(s, i, PATH_LIMIT) else None
  }

  /** At most 512 levels down, and every name on the way may be joined. */
  ghost predicate HasPath(s: Arena, d: nat, fuel: nat)
    requires d < |s|
  {
    Up(Edges(s), d, fuel).None? && forall k: nat :: k != 0 && AtOrBelow(Edges(s), d, k) ==> k < |s| && Joinable(s[k].name)
  }

  /** In a tree these are the nodes that have a path. */
  lemma {:induction false} PathIsFound(s: Arena, i: nat, fuel: nat)
    requires WellFormed(s) && Valid(s, i)
    ensures PathFrom(s, i, fuel).Some? <==> HasPath(s, i, fuel)
    decreases fuel
  {
    hide Acyclic, Joinable, AtOrBelow;
    var e := Edges(s);
    if fuel == 0 {
      assert Up(e, i, 0) == Some(i);
    } else if i == 0 {
      RootIsTop(s, fuel);
    } else {
      var p: nat := s[i].parent;
      PathIsFound(s, p, fuel - 1);
      StepUp(s, i, fuel);
    }
  }

  lemma {:induction false} RootIsTop(s: Arena, fuel: nat)
    requires WellFormed(s) && fuel > 0
    ensures Up(Edges(s), 0, fuel).None? && forall k: nat :: AtOrBelow(Edges(s), 0, k) ==> k == 0
  {
    hide Acyclic;
    var e := Edges(s);
    assert e[0] == None;
    assert Up(e, 0, 0) == Some(0) && Up(e, 0, 1) == None;
    if Up(e, 0, fuel).Some? { UpPrefix(e, 0, 1, fuel); }
    forall k: nat | AtOrBelow(e, 0, k) ensures k == 0 { ReachesFirstStep(e, 0, k); }
  }

  lemma {:induction false} StepUp(s: Arena, i: nat, fuel: nat)
    requires WellFormed(s) && Valid(s, i) && i != 0 && fuel > 0
    ensures Valid(s, s[i].parent) && Up(Edges(s), i, fuel) == Up(Edges(s), s[i].parent, fuel - 1)
    ensures forall k: nat :: AtOrBelow(Edges(s), i, k) <==> k == i || AtOrBelow(Edges(s), s[i].parent, k)
  {
    hide Acyclic;
    var e, p: nat := Edges(s), s[i].parent;
    assert e[i] == Some(p);
    assert Up(e, i, 0) == Some(i) && Up(e, i, 1) == Some(p);
    UpCompose(e, i, p, 1, fuel - 1);
    forall k: nat ensures AtOrBelow(e, i, k) <==> k == i || AtOrBelow(e, p, k) { ReachesFirstStep(e, i, k); }
  }

  /** The path of a chain of nodes read towards the root, once the path above its last node is known. */
  function Descended(s: Arena, above: Option<seq<Name>>, chain: seq<nat>): (r: Option<seq<Name>>)
    requires forall k :: 0 <= k < |chain| ==> chain[k] < |s|
  {
    if chain == [] then above else Entered(Descended(s, above, chain[1..]), s[chain[0]].name)
  }

  lemma {:induction false} DescendedFurther(s: Arena, above: Option<seq<Name>>, chain: seq<nat>, cur: nat)
    requires (forall k :: 0 <= k < |chain| ==> chain[k] < |s|) && cur < |s|
    ensures Descended(s, above, chain + [cur]) == Descended(s, Entered(above, s[cur].name), chain)
  {
    if chain == [] {
      assert chain + [cur] == [cur] && [cur][1..] == [];
    } else {
      assert (chain + [cur])[1..] == chain[1..] + [cur];
      DescendedFurther(s, above, chain[1..], cur);
    }
  }

  lemma {:induction false} DescendedNowhere(s: Arena, chain: seq<nat>)
    requires forall k :: 0 <= k < |chain| ==> chain[k] < |s|
    ensures Descended(s, None, chain) == None
  {
    if chain != [] { DescendedNowhere(s, chain[1..]); }
  }

  lemma {:induction false} SomeNameUnsafe(s: Arena, chain: seq<nat>, i: nat)
    requires (forall k :: 0 <= k < |chain| ==> chain[k] < |s|) && i <= |chain| && Descended(s, Some([]), chain[i..]) == None
    ensures Descended(s, Some([]), chain) == None
  {
    if i > 0 {
      assert chain[1..][i - 1..] == chain[i..];
      SomeNameUnsafe(s, chain[1..], i - 1);
    } else {
      assert chain[0..] == chain;
    }
  }

  /** Where a subtree named `name` under a directory lies. */
  function NewRoot(s: Arena, mount: seq<Name>, parent: nat, name: Name): (r: Place)
  {
    match PathOf(s, parent)
    case Some(p) => Place(true, mount + p + [name])
    case None => Place(false, [name])
  }

  /** The gaps of a scan of `mount`, moved to the place its tree is grafted at; others are not its to report. */
  function HandedOn(root: Place, mount: seq<Name>, gaps: seq<Place>): (r: seq<Place>)
  {
    if gaps == [] then []
    else
      var g := gaps[|gaps| - 1];
      HandedOn(root, mount, gaps[..|gaps| - 1]) + if g.rooted && mount <= g.names then [root.(names := root.names + g.names[|mount|..])] else []
  }

  /** A gap of the scan is a gap at the same place below the new root, and every gap handed on is such a one. */
  lemma {:induction false} GapsAreMoved(root: Place, mount: seq<Name>, gaps: seq<Place>, x: Place)
    ensures x in HandedOn(root, mount, gaps) <==>
            exists rest: seq<Name> :: Place(true, mount + rest) in gaps && x == root.(names := root.names + rest)
  {
    if gaps != [] {
      var init, g := gaps[..|gaps| - 1], gaps[|gaps| - 1];
      GapsAreMoved(root, mount, init, x);
      assert gaps == init + [g];
      if g.rooted && mount <= g.names {
        var rest := g.names[|mount|..];
        assert g == Place(true, mount + rest);
      }
      if rest: seq<Name> :| Place(true, mount + rest) in gaps && x == root.(names := root.names + rest) {
        assert (mount + rest)[|mount|..] == rest;
      }
    }
  }

  /** A node found by path lies, up to case folding, at that path. */
  lemma {:induction false} FoundLiesThere(s: Arena, rows: Rows, fold: Fold, path: seq<Name>, fuel: nat)
    requires WellFormed(s) && RowsFit(s, rows) && Resolve(s, rows, fold, path).Some? && |path| < fuel
    requires forall i :: 0 < i < |s| && s[i].used ==> Joinable(s[i].name)
    ensures var r := PathFrom(s, Resolve(s, rows, fold, path).value, fuel);
      r.Some? && |r.value| == |path| && forall k :: 0 <= k < |path| ==> fold(r.value[k]) == fold(path[k])
  {
    if path != [] {
      var n := |path| - 1;
      FoundLiesThere(s, rows, fold, path[..n], fuel - 1);
      ResolvedDepth(s, rows, fold, path);
      var i := Resolve(s, rows, fold, path).value;
      assert Named(s, fold, fold(path[n]), i);
    }
  }

  /** Trees with the same names, links and live nodes lie in the same places. */
  lemma {:induction false} SamePlaces(s: Arena, t: Arena, cur: nat, fuel: nat)
    requires |s| == |t| && forall i :: 0 <= i < |s| ==> t[i].name == s[i].name && t[i].parent == s[i].parent && t[i].used == s[i].used
    ensures PathFrom(t, cur, fuel) == PathFrom(s, cur, fuel)
    decreases fuel
  {
    if fuel > 0 && cur != 0 && Valid(s, cur) { SamePlaces(s, t, s[cur].parent, fuel - 1); }
  }
}
