/** The name pool: each distinct name once, length-prefixed. */
module Interning {
  import opened Words
  import opened Slots
  import opened Bytes
  import opened BaseFormat

  datatype Interned = Interned(pool: Text, offs: map<Name, nat>)

  /** Every remembered offset holds its name. */
  ghost predicate PoolOk(k: Interned)
  {
    forall name :: name in k.offs ==> NameIn(k.pool, k.offs[name]) == Some(name)
  }

  /** The pool with a name added if it was not there; its offset is then remembered. */
  function InternName(k: Interned, name: Name): (k': Interned)
    requires |name| <= MAX_U16
    ensures name in k'.offs && |k.pool| <= |k'.pool| && k'.pool[..|k.pool|] == k.pool
    ensures forall x :: x in k.offs ==> x in k'.offs && k'.offs[x] == k.offs[x]
  {
    if name in k.offs then k else Interned(k.pool + LE16(|name|) + name, k.offs[name := |k.pool|])
  }

  lemma NameKept(pool: Text, more: Text, off: nat)
    requires NameIn(pool, off).Some?
    ensures NameIn(pool + more, off) == NameIn(pool, off)
  {
    var b := pool + more;
    assert b[off] == pool[off] && b[off + 1] == pool[off + 1];
    assert U16At(b, off) == U16At(pool, off);
    var n := U16At(pool, off);
    assert b[off + 2..off + 2 + n] == pool[off + 2..off + 2 + n];
  }

  lemma NameAdded(pool: Text, name: Name)
    requires |name| <= MAX_U16
    ensures NameIn(pool + LE16(|name|) + name, |pool|) == Some(name)
  {
    var b := pool + LE16(|name|) + name;
    ReadLE16(|name|);
    assert b[|pool|] == LE16(|name|)[0] && b[|pool| + 1] == LE16(|name|)[1];
    assert U16At(b, |pool|) == |name|;
    assert b[|pool| + 2..|pool| + 2 + |name|] == name;
  }

  lemma InternKeepsPool(k: Interned, name: Name)
    requires PoolOk(k) && |name| <= MAX_U16
    ensures PoolOk(InternName(k, name))
  {
    hide NameIn, LE16;
    if name !in k.offs {
      var more := LE16(|name|) + name;
      NameAdded(k.pool, name);
      assert k.pool + LE16(|name|) + name == k.pool + more;
      forall x | x in k.offs ensures NameIn(k.pool + more, k.offs[x]) == Some(x) { NameKept(k.pool, more, k.offs[x]); }
    }
  }

  predicate ShortNames(names: seq<Name>)
  {
    forall i :: 0 <= i < |names| ==> |names[i]| <= MAX_U16
  }

  /** The pool after interning the names in order. */
  function InternAll(names: seq<Name>): (k: Interned)
    requires ShortNames(names)
    ensures forall i :: 0 <= i < |names| ==> names[i] in k.offs
    ensures forall x :: x in k.offs ==> x in names
  {
    if names == [] then Interned([], map[])
    else
      var n := |names| - 1;
      assert forall i :: 0 <= i < n ==> names[..n][i] == names[i];
      InternName(InternAll(names[..n]), names[n])
  }

  function Offsets(names: seq<Name>): (r: seq<nat>)
    requires ShortNames(names)
    ensures |r| == |names|
    ensures forall i :: 0 <= i < |r| ==> r[i] == InternAll(names).offs[names[i]]
  {
    seq(|names|, (i: nat) requires i < |names| => InternAll(names).offs[names[i]])
  }

  lemma {:induction false} InternAllOk(names: seq<Name>)
    requires ShortNames(names)
    ensures PoolOk(InternAll(names))
  {
    if names != [] {
      var n := |names| - 1;
      InternAllOk(names[..n]);
      InternKeepsPool(InternAll(names[..n]), names[n]);
    }
  }

  /** Every name is found again at its offset. */
  lemma {:induction false} OffsetsRead(names: seq<Name>, i: nat)
    requires ShortNames(names) && i < |names|
    ensures NameIn(InternAll(names).pool, Offsets(names)[i]) == Some(names[i])
  {
    InternAllOk(names);
  }

  /** The bytes the distinct names take, each behind its length. */
  function DistinctBytes(names: seq<Name>): nat
  {
    if names == [] then 0
    else
      var n := |names| - 1;
      DistinctBytes(names[..n]) + if names[n] in names[..n] then 0 else 2 + |names[n]|
  }

  /** The pool holds each distinct name once and nothing else, and two names share an offset exactly when they are the same. */
  lemma {:induction false} StoredOnce(names: seq<Name>)
    requires ShortNames(names)
    ensures |InternAll(names).pool| == DistinctBytes(names)
    ensures forall i, j :: 0 <= i < |names| && 0 <= j < |names| ==> (Offsets(names)[i] == Offsets(names)[j] <==> names[i] == names[j])
  {
    if names != [] {
      var n := |names| - 1;
      StoredOnce(names[..n]);
      InternedAre(names[..n], names[n]);
    }
    InternAllOk(names);
  }

  lemma {:induction false} InternedAre(names: seq<Name>, x: Name)
    requires ShortNames(names)
    ensures x in InternAll(names).offs <==> x in names
  {
    if x in names {
      var i :| 0 <= i < |names| && names[i] == x;
    }
  }

  /** Later names do not move earlier ones. */
  lemma {:induction false} OffsetsStay(names: seq<Name>, n: nat, x: Name)
    requires ShortNames(names) && n <= |names| && x in InternAll(names[..n]).offs
    ensures x in InternAll(names).offs && InternAll(names).offs[x] == InternAll(names[..n]).offs[x]
  {
    hide InternAll, InternName;
    if n < |names| {
      var m := |names| - 1;
      assert names[..m][..n] == names[..n];
      OffsetsStay(names[..m], n, x);
      assert names[..m + 1] == names;
      InternNext(names, m);
    } else {
      assert names[..n] == names;
    }
  }

  /** Interns names one by one, as the topological encoder does. */
  method InternEach(names: seq<Name>) returns (pool: Text, offsets: seq<nat>)
    requires ShortNames(names)
    ensures pool == InternAll(names).pool && offsets == Offsets(names)
  {
    hide InternName, InternAll, Placed;
    var k := Interned([], map[]);
    offsets := [];
    NothingPlaced(names, []);
    for i := 0 to |names|
      invariant |offsets| == i && Placed(names, k, offsets)
    {
      PlaceNext(names, k, offsets);
      k := InternName(k, names[i]);
      offsets := offsets + [k.offs[names[i]]];
    }
    PlacedAll(names, k, offsets);
    pool := k.pool;
  }

  lemma InternNext(names: seq<Name>, i: nat)
    requires ShortNames(names) && i < |names|
    ensures ShortNames(names[..i]) && ShortNames(names[..i + 1])
    ensures InternAll(names[..i + 1]) == InternName(InternAll(names[..i]), names[i])
  {
    assert names[..i + 1][..i] == names[..i];
  }

  /** Names still in the base pool, by their offset there: equal offsets mean equal names. */
  ghost predicate BaseNamesOk(names: seq<Name>, baseOff: seq<Option<U32>>)
  {
    && |baseOff| == |names|
    && forall i, j :: 0 <= i < |names| && 0 <= j < |names| && baseOff[i].Some? && baseOff[i] == baseOff[j] ==> names[i] == names[j]
  }

  /** Offsets met so far, by the base offset they stand for. */
  ghost predicate Met(baseOff: seq<Option<U32>>, offsets: seq<nat>, baseNames: map<U32, nat>)
    requires |offsets| <= |baseOff|
  {
    forall off :: off in baseNames ==> exists j :: 0 <= j < |offsets| && baseOff[j] == Some(off) && baseNames[off] == offsets[j]
  }

  lemma MetMore(baseOff: seq<Option<U32>>, offsets: seq<nat>, baseNames: map<U32, nat>, o: nat)
    requires |offsets| < |baseOff| && Met(baseOff, offsets, baseNames)
    ensures Met(baseOff, offsets + [o], baseNames)
    ensures baseOff[|offsets|].Some? ==> Met(baseOff, offsets + [o], baseNames[baseOff[|offsets|].value := o])
  {
    forall off | off in baseNames
      ensures exists j :: 0 <= j < |offsets| + 1 && baseOff[j] == Some(off) && baseNames[off] == (offsets + [o])[j]
    {
      var j :| 0 <= j < |offsets| && baseOff[j] == Some(off) && baseNames[off] == offsets[j];
      assert (offsets + [o])[j] == offsets[j];
    }
    assert (offsets + [o])[|offsets|] == o;
  }

  lemma MetAt(baseOff: seq<Option<U32>>, offsets: seq<nat>, baseNames: map<U32, nat>, off: U32) returns (j: nat)
    requires |offsets| <= |baseOff| && Met(baseOff, offsets, baseNames) && off in baseNames
    ensures j < |offsets| && baseOff[j] == Some(off) && baseNames[off] == offsets[j]
  {
    j :| 0 <= j < |offsets| && baseOff[j] == Some(off) && baseNames[off] == offsets[j];
  }

  /** The first names are interned, and their offsets known. */
  ghost predicate Placed(names: seq<Name>, k: Interned, offsets: seq<nat>)
  {
    && |offsets| <= |names| && ShortNames(names[..|offsets|]) && k == InternAll(names[..|offsets|])
    && forall j :: 0 <= j < |offsets| ==> names[j] in k.offs && offsets[j] == k.offs[names[j]]
  }

  lemma NothingPlaced(names: seq<Name>, baseOff: seq<Option<U32>>)
    ensures Placed(names, Interned([], map[]), []) && Met(baseOff, [], map[])
  {
    InternNone(names);
  }

  lemma PlaceNext(names: seq<Name>, k: Interned, offsets: seq<nat>)
    requires ShortNames(names) && Placed(names, k, offsets) && |offsets| < |names|
    ensures Placed(names, InternName(k, names[|offsets|]), offsets + [InternName(k, names[|offsets|]).offs[names[|offsets|]]])
  {
    hide InternName, InternAll;
    InternNext(names, |offsets|);
  }

  /** A name placed already keeps its offset. */
  lemma PlaceAgain(names: seq<Name>, k: Interned, offsets: seq<nat>, j: nat)
    requires ShortNames(names) && Placed(names, k, offsets) && j < |offsets| < |names| && names[j] == names[|offsets|]
    ensures Placed(names, k, offsets + [offsets[j]])
  {
    PlaceNext(names, k, offsets);
  }

  lemma {:induction false} PlacedAll(names: seq<Name>, k: Interned, offsets: seq<nat>)
    requires ShortNames(names) && Placed(names, k, offsets) && |offsets| == |names|
    ensures k == InternAll(names) && offsets == Offsets(names)
  {
    assert names[..|names|] == names;
  }

  /** Interns names with a shortcut: a base name already met is looked up by its old offset. */
  method InternMapped(names: seq<Name>, baseOff: seq<Option<U32>>) returns (pool: Text, offsets: seq<nat>)
    requires ShortNames(names) && BaseNamesOk(names, baseOff)
    ensures pool == InternAll(names).pool && offsets == Offsets(names)
  {
    hide InternName, InternAll, Placed, Met;
    var k := Interned([], map[]);
    var baseNames: map<U32, nat> := map[];
    offsets := [];
    NothingPlaced(names, baseOff);
    for i := 0 to |names|
      invariant |offsets| == i && Placed(names, k, offsets) && Met(baseOff, offsets, baseNames)
    {
      if baseOff[i].Some? && baseOff[i].value in baseNames {
        var o := baseNames[baseOff[i].value];
        ghost var j := MetAt(baseOff, offsets, baseNames, baseOff[i].value);
        PlaceAgain(names, k, offsets, j);
        MetMore(baseOff, offsets, baseNames, o);
        offsets := offsets + [o];
      } else {
        PlaceNext(names, k, offsets);
        k := InternName(k, names[i]);
        var o := k.offs[names[i]];
        MetMore(baseOff, offsets, baseNames, o);
        offsets := offsets + [o];
        if baseOff[i].Some? {
          baseNames := baseNames[baseOff[i].value := o];
        }
      }
    }
    PlacedAll(names, k, offsets);
    pool := k.pool;
  }

  lemma InternNone(names: seq<Name>)
    ensures InternAll(names[..0]) == Interned([], map[])
  {
  }
}
