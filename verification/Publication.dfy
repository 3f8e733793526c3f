/** What a reader finds on disk, and the steps a publication takes there. */
module Publication {
  import opened Words
  import opened ChildRows
  import opened DeltaDiff

  /** A tree is known by identity, a path by its place in string order. */
  type Tree = nat
  type Path = nat
  type Checksum = nat

  const MOUNT: Path := 0

  /** Which blocked paths are well formed, and the digest that binds a canonical list to a header. */
  datatype Rules = Rules(clean: Path -> bool, digest: seq<Path> -> nat)

  /** The sidecar of an index: the checksums and event it belongs to, and the blocked subtrees. */
  datatype Coverage = Coverage(baseSum: Checksum, deltaSum: Checksum, event: nat, blocked: seq<Path>)

  /** How a header refers to coverage: bound by digest, plainly absent, or in no known way. */
  datatype Binding = Bound(digest: nat) | Legacy | Unknown

  datatype BaseFile = BaseFile(sum: Checksum, event: nat, tree: Tree, sound: bool, binding: Binding)

  /** sound: it decodes over the base it names. headed: its header is readable. */
  datatype DeltaFile = DeltaFile(sum: Checksum, baseSum: Checksum, event: nat, tree: Tree, headed: bool, sound: bool, binding: Binding)

  datatype Disk = Disk(base: Option<BaseFile>, delta: Option<DeltaFile>, baseSide: map<Checksum, Coverage>, deltaSide: map<Checksum, Coverage>)

  datatype Loaded = Loaded(tree: Tree, event: nat, blocked: seq<Path>)

  // -- Coverage ----------------------------------------------------------------------------

  predicate AllClean(rules: Rules, blocked: seq<Path>)
  {
    forall i :: 0 <= i < |blocked| ==> rules.clean(blocked[i])
  }

  /** Blocked paths in canonical form: well formed, sorted, each once. */
  function Canonical(rules: Rules, blocked: seq<Path>): (r: Option<seq<Path>>)
    ensures r.Some? ==> Ascending(r.value) && forall x :: x in r.value <==> x in blocked
    ensures r.Some? <==> forall x :: x in blocked ==> rules.clean(x)
  {
    if AllClean(rules, blocked) then Some(SortUnique(blocked)) else None
  }

  /** A canonical list is its own canonical form. */
  lemma CanonicalTwice(rules: Rules, blocked: seq<Path>)
    requires Canonical(rules, blocked).Some?
    ensures Canonical(rules, Canonical(rules, blocked).value) == Canonical(rules, blocked)
  {
    var c := Canonical(rules, blocked).value;
    forall i | 0 <= i < |c| ensures rules.clean(c[i]) {
      assert c[i] in blocked;
      var k :| 0 <= k < |blocked| && blocked[k] == c[i];
    }
    AscendingUnique(SortUnique(c), c);
  }

  /** The blocked list an index comes with, if its coverage can be established. */
  function Restore(rules: Rules, binding: Binding, side: map<Checksum, Coverage>, sum: Checksum, want: Coverage): Option<seq<Path>>
  {
    match binding
    case Legacy => Some([MOUNT])
    case Unknown => None
    case Bound(digest) =>
      if sum !in side then None
      else
        var cov := side[sum];
        if cov.(blocked := want.blocked) != want then None
        else if Canonical(rules, cov.blocked) != Some(cov.blocked) || rules.digest(cov.blocked) != digest then None
        else Some(cov.blocked)
  }

  function RestoreBase(rules: Rules, disk: Disk, b: BaseFile): Option<seq<Path>>
  {
    Restore(rules, b.binding, disk.baseSide, b.sum, Coverage(b.sum, 0, b.event, []))
  }

  function RestoreDelta(rules: Rules, disk: Disk, b: BaseFile, d: DeltaFile): Option<seq<Path>>
  {
    Restore(rules, d.binding, disk.deltaSide, d.sum, Coverage(b.sum, d.sum, d.event, []))
  }

  // -- Loading --------------------------------------------------------------------------------

  predicate Applies(b: BaseFile, d: DeltaFile)
  {
    d.headed && d.sound && d.baseSum == b.sum && d.event >= b.event
  }

  /** What a reader gets: the base under its coverage, or the delta over it when everything about the delta checks. */
  function Load(rules: Rules, disk: Disk): Option<Loaded>
  {
    match disk.base
    case None => None
    case Some(b) =>
      if !b.sound then None
      else
        match RestoreBase(rules, disk, b)
        case None => None
        case Some(blocked) =>
          if disk.delta.Some? && Applies(b, disk.delta.value) && RestoreDelta(rules, disk, b, disk.delta.value).Some?
          then Some(Loaded(disk.delta.value.tree, disk.delta.value.event, RestoreDelta(rules, disk, b, disk.delta.value).value))
          else Some(Loaded(b.tree, b.event, blocked))
  }

  /** The blocked list is the one this index is bound to: named by its sidecar, canonical, and of the digest in the header. */
  predicate Own(rules: Rules, binding: Binding, side: map<Checksum, Coverage>, sum: Checksum, cov: Coverage)
  {
    match binding
    case Legacy => cov.blocked == [MOUNT]
    case Unknown => false
    case Bound(digest) => sum in side && side[sum] == cov && Canonical(rules, cov.blocked) == Some(cov.blocked) && rules.digest(cov.blocked) == digest
  }

  /** What a reader gets is one index under its own coverage: the base, or a delta made for that very base. */
  ghost predicate Paired(rules: Rules, disk: Disk)
  {
    Load(rules, disk).Some? ==>
      && disk.base.Some? && disk.base.value.sound
      && var l, b := Load(rules, disk).value, disk.base.value;
         || (l.tree == b.tree && l.event == b.event && Own(rules, b.binding, disk.baseSide, b.sum, Coverage(b.sum, 0, b.event, l.blocked)))
         || (disk.delta.Some?
             && var d := disk.delta.value;
                && d.headed && d.sound && d.baseSum == b.sum && d.event >= b.event && l.tree == d.tree && l.event == d.event
                && Own(rules, d.binding, disk.deltaSide, d.sum, Coverage(b.sum, d.sum, d.event, l.blocked)))
  }

  lemma LoadIsPaired(rules: Rules, disk: Disk)
    ensures Paired(rules, disk)
  {
    hide Canonical;
  }

  /** A delta a reader has to use: sound, made for this base, no older, and under coverage of its own. */
  ghost predicate Usable(rules: Rules, disk: Disk, b: BaseFile, d: DeltaFile, blocked: seq<Path>)
  {
    && d.headed && d.sound && d.baseSum == b.sum && d.event >= b.event
    && Own(rules, d.binding, disk.deltaSide, d.sum, Coverage(b.sum, d.sum, d.event, blocked))
  }

  /** Readers find whatever is there: a sound base under its own coverage always loads, with its delta when that one is usable. */
  lemma LoadFindsAll(rules: Rules, disk: Disk, blocked: seq<Path>)
    requires disk.base.Some? && disk.base.value.sound
    requires Own(rules, disk.base.value.binding, disk.baseSide, disk.base.value.sum, Coverage(disk.base.value.sum, 0, disk.base.value.event, blocked))
    ensures forall listed :: disk.delta.Some? && Usable(rules, disk, disk.base.value, disk.delta.value, listed) ==>
      Load(rules, disk) == Some(Loaded(disk.delta.value.tree, disk.delta.value.event, listed))
    ensures (forall listed :: disk.delta.Some? ==> !Usable(rules, disk, disk.base.value, disk.delta.value, listed)) ==>
      Load(rules, disk) == Some(Loaded(disk.base.value.tree, disk.base.value.event, blocked))
  {
    hide Canonical;
    if disk.delta.Some? && Applies(disk.base.value, disk.delta.value) {
      var listed := RestoreDelta(rules, disk, disk.base.value, disk.delta.value);
      if listed.Some? { assert Usable(rules, disk, disk.base.value, disk.delta.value, listed.value); }
    }
  }

  // -- Publishing -------------------------------------------------------------------------------

  /** One atomic change of the disk. */
  datatype Op =
    | PutBaseSide(sum: Checksum, cov: Coverage)
    | PutDeltaSide(sum: Checksum, cov: Coverage)
    | RenameBase(file: BaseFile)
    | RenameDelta(patch: DeltaFile)
    | RemoveDelta

  function Applied(disk: Disk, op: Op): Disk
  {
    match op
    case PutBaseSide(sum, cov) => disk.(baseSide := disk.baseSide[sum := cov])
    case PutDeltaSide(sum, cov) => disk.(deltaSide := disk.deltaSide[sum := cov])
    case RenameBase(file) => disk.(base := Some(file))
    case RenameDelta(file) => disk.(delta := Some(file))
    case RemoveDelta => disk.(delta := None)
  }

  function AppliedAll(disk: Disk, ops: seq<Op>): Disk
  {
    if ops == [] then disk else Applied(AppliedAll(disk, ops[..|ops| - 1]), ops[|ops| - 1])
  }

  /** A new base: sidecar first, then the file, then the old delta goes. */
  function BaseOps(rules: Rules, sum: Checksum, tree: Tree, event: nat, blocked: seq<Path>): (ops: seq<Op>)
    ensures |ops| == 3
  {
    [PutBaseSide(sum, Coverage(sum, 0, event, blocked)), RenameBase(BaseFile(sum, event, tree, true, Bound(rules.digest(blocked)))), RemoveDelta]
  }

  /** A new delta: sidecar first, then the file. */
  function DeltaOps(rules: Rules, sum: Checksum, baseSum: Checksum, tree: Tree, event: nat, blocked: seq<Path>): (ops: seq<Op>)
    ensures |ops| == 2
  {
    [PutDeltaSide(sum, Coverage(baseSum, sum, event, blocked)), RenameDelta(DeltaFile(sum, baseSum, event, tree, true, true, Bound(rules.digest(blocked))))]
  }

  /** No index on disk carries, or is bound to, this base checksum. */
  predicate FreshBase(disk: Disk, sum: Checksum)
  {
    (disk.base.Some? ==> disk.base.value.sum != sum) && (disk.delta.Some? ==> disk.delta.value.baseSum != sum)
  }

  predicate FreshDelta(disk: Disk, sum: Checksum)
  {
    disk.delta.Some? ==> disk.delta.value.sum != sum
  }

  /** The sidecar a delta is about to put belongs to no delta on disk, or is there already. */
  predicate SettledDelta(disk: Disk, sum: Checksum, cov: Coverage)
  {
    FreshDelta(disk, sum) || (sum in disk.deltaSide && disk.deltaSide[sum] == cov)
  }

  lemma SideAlone(rules: Rules, disk: Disk, sum: Checksum, cov: Coverage)
    ensures FreshBase(disk, sum) ==> Load(rules, Applied(disk, PutBaseSide(sum, cov))) == Load(rules, disk)
    ensures SettledDelta(disk, sum, cov) ==> Load(rules, Applied(disk, PutDeltaSide(sum, cov))) == Load(rules, disk)
  {
    if sum in disk.deltaSide && disk.deltaSide[sum] == cov {
      assert disk.deltaSide[sum := cov] == disk.deltaSide;
    }
  }

  /** Stopping a base publication after any number of its steps leaves the old state or the new one, whole. */
  lemma {:induction false} BasePublicationIsAtomic(rules: Rules, disk: Disk, sum: Checksum, tree: Tree, event: nat, blocked: seq<Path>, k: nat)
    requires FreshBase(disk, sum) && Canonical(rules, blocked) == Some(blocked) && k <= 3
    ensures Load(rules, AppliedAll(disk, BaseOps(rules, sum, tree, event, blocked)[..k])) == if k < 2 then Load(rules, disk) else Some(Loaded(tree, event, blocked))
    ensures Paired(rules, AppliedAll(disk, BaseOps(rules, sum, tree, event, blocked)[..k]))
  {
    LoadIsPaired(rules, AppliedAll(disk, BaseOps(rules, sum, tree, event, blocked)[..k]));
    var ops := BaseOps(rules, sum, tree, event, blocked);
    Unrolled3(disk, ops, k);
    SideAlone(rules, disk, sum, Coverage(sum, 0, event, blocked));
  }

  /** So does stopping a delta publication over a loadable base. */
  lemma {:induction false} DeltaPublicationIsAtomic(rules: Rules, disk: Disk, sum: Checksum, tree: Tree, event: nat, blocked: seq<Path>, k: nat)
    requires Canonical(rules, blocked) == Some(blocked) && k <= 2
    requires disk.base.Some? && SettledDelta(disk, sum, Coverage(disk.base.value.sum, sum, event, blocked))
    requires Load(rules, disk).Some? && event >= disk.base.value.event
    ensures Load(rules, AppliedAll(disk, DeltaOps(rules, sum, disk.base.value.sum, tree, event, blocked)[..k]))
         == if k < 2 then Load(rules, disk) else Some(Loaded(tree, event, blocked))
    ensures Paired(rules, AppliedAll(disk, DeltaOps(rules, sum, disk.base.value.sum, tree, event, blocked)[..k]))
  {
    LoadIsPaired(rules, AppliedAll(disk, DeltaOps(rules, sum, disk.base.value.sum, tree, event, blocked)[..k]));
    var ops := DeltaOps(rules, sum, disk.base.value.sum, tree, event, blocked);
    Unrolled2(disk, ops, k);
    SideAlone(rules, disk, sum, Coverage(disk.base.value.sum, sum, event, blocked));
  }

  lemma {:induction false} Unrolled2(disk: Disk, ops: seq<Op>, k: nat)
    requires |ops| >= 2 && k <= 2
    ensures AppliedAll(disk, ops[..k]) == if k == 0 then disk else if k == 1 then Applied(disk, ops[0]) else Applied(Applied(disk, ops[0]), ops[1])
  {
    assert ops[..0] == [];
    assert ops[..1][..0] == [];
    assert ops[..2][..1] == ops[..1];
    assert AppliedAll(disk, ops[..1]) == Applied(AppliedAll(disk, ops[..1][..0]), ops[0]);
  }

  lemma {:induction false} Unrolled3(disk: Disk, ops: seq<Op>, k: nat)
    requires |ops| >= 3 && k <= 3
    ensures AppliedAll(disk, ops[..k])
         == if k == 0 then disk else if k == 1 then Applied(disk, ops[0]) else if k == 2 then Applied(Applied(disk, ops[0]), ops[1])
            else Applied(Applied(Applied(disk, ops[0]), ops[1]), ops[2])
  {
    if k <= 2 {
      Unrolled2(disk, ops, k);
    } else {
      Unrolled2(disk, ops, 2);
      assert ops[..3][..2] == ops[..2];
    }
  }
}
