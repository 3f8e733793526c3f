/** Tree slots: the records of the size index, and the parent graph they form. */
module Slots {
  import opened Words
  import opened Sums
  import opened Forest

  type Name = seq<Byte>

  datatype Slot = Slot(parent: U32, name: Name, isDir: bool, size: U64, used: bool, mtime: U64, files: U64)

  type Arena = seq<Slot>

  predicate Valid(s: Arena, i: int)
  {
    0 <= i < |s| && s[i].used
  }

  predicate IsDir(s: Arena, i: int)
  {
    0 <= i < |s| && s[i].used && s[i].isDir
  }

  /** A used, non-directory slot. */
  predicate IsFile(s: Arena, i: int)
  {
    0 <= i < |s| && s[i].used && !s[i].isDir
  }

  /** Every live node but the root has an earlier parent. */
  ghost predicate ParentFirst(s: Arena)
  {
    forall i :: 0 < i < |s| && s[i].used ==> s[i].parent < i
  }

  /** The parent link a node contributes through: a used node under a different, used directory. */
  function HeapEdge(s: Arena, i: nat): (r: Option<nat>)
    requires i < |s|
    ensures r.Some? ==> r.value < |s|
  {
    var p := s[i].parent;
    if i == 0 || !s[i].used || p == i || p >= |s| || !s[p].used || !s[p].isDir then None else Some(p)
  }

  ghost function Edges(s: Arena): (e: Graph)
    ensures |e| == |s|
    ensures forall i :: 0 <= i < |s| ==> e[i] == HeapEdge(s, i)
  {
    seq(|s|, (i: nat) requires i < |s| => HeapEdge(s, i))
  }

  ghost function SizeWeight(s: Arena): nat -> nat
  {
    (i: nat) => if IsFile(s, i) then s[i].size else 0
  }

  ghost function CountWeight(s: Arena): nat -> nat
  {
    (i: nat) => if IsFile(s, i) then 1 else 0
  }

  /** The exact number of bytes below d. */
  ghost function BytesBelow(s: Arena, d: nat): nat
  {
    Total(Edges(s), SizeWeight(s), d)
  }

  /** The exact number of files below d. */
  ghost function FilesBelow(s: Arena, d: nat): nat
  {
    Total(Edges(s), CountWeight(s), d)
  }

  ghost function KindWeight(s: Arena, directory: bool): nat -> nat
  {
    (i: nat) => if i < |s| && s[i].used && s[i].isDir == directory then 1 else 0
  }

  /** How many live nodes are directories, or files. */
  ghost function CountKind(s: Arena, directory: bool): nat
  {
    Sum(|s|, KindWeight(s, directory))
  }

  lemma CountChange(s: Arena, t: Arena, idx: nat, directory: bool)
    requires idx < |s| == |t| && forall i :: 0 <= i < |s| && i != idx ==> t[i] == s[i]
    ensures CountKind(t, directory) + (if s[idx].used && s[idx].isDir == directory then 1 else 0)
         == CountKind(s, directory) + (if t[idx].used && t[idx].isDir == directory then 1 else 0)
  {
    var f, g := KindWeight(s, directory), KindWeight(t, directory);
    var hole := (i: nat) => if i == idx then 0 else f(i);
    SumPoint(|s|, hole, f, idx, f(idx));
    SumPoint(|s|, hole, g, idx, g(idx));
  }

  lemma CountAppend(s: Arena, e: Slot, directory: bool)
    ensures CountKind(s + [e], directory) == CountKind(s, directory) + (if e.used && e.isDir == directory then 1 else 0)
  {
    SumEqual(|s|, KindWeight(s + [e], directory), KindWeight(s, directory));
  }

  /** t is s except for the totals stored in directory slots. */
  ghost predicate SameButTotals(s: Arena, t: Arena)
  {
    && |s| == |t|
    && forall i :: 0 <= i < |s| ==> t[i] == if s[i].isDir then s[i].(size := t[i].size, files := t[i].files) else s[i]
  }

  lemma FileHasNoChildren(s: Arena, c: nat, f: nat)
    requires f < |s| && !s[f].isDir
    ensures !ChildOf(Edges(s), c, f)
  {
  }

  lemma NothingBelowFile(s: Arena, w: nat -> nat, f: nat)
    requires f < |s| && !s[f].isDir
    ensures Total(Edges(s), w, f) == 0
    ensures !OnCycle(Edges(s), f)
  {
    var e := Edges(s);
    forall i: nat ensures !Reaches(e, i, f) {
      if Reaches(e, i, f) {
        var c := ReachesLastStep(e, i, f);
        FileHasNoChildren(s, c, f);
        assert ChildOf(e, c, f);
      }
    }
    SumZero(|e|, BelowWeight(e, w, f));
  }
}
