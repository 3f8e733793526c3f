/**
 Saving, patching and loading one volume's index, with every disk step free to fail
 or to be the last one before a crash.
 */
module IndexCache {
  import opened Words
  import opened Publication

  const COMPACT_THRESHOLD: nat := 200_000

  /** What a tree brings along when it is saved. What the codec and the validators say about it is taken as given. */
  datatype Snapshot = Snapshot(
    tree: Tree, blocked: seq<Path>,
    // The mapped base it edits: its checksum and event.
    mapped: Option<(Checksum, nat)>,
    valid: bool, editsOk: bool, encodes: bool,
    // How many entries it has as edits of its own base, and, if it can be written so, as a patch of the base of a checksum.
    fastCount: nat, patch: Checksum -> Option<nat>)

  /** Whether a disk step happens, and what becomes of the caller. */
  datatype Fault = Fine | Failed(applied: bool) | Crashed(applied: bool)

  datatype Step = Stepped | Erred | Stopped

  datatype Result = Saved(delta: bool, compacted: bool) | Stale | Refused | DiskError | Gone

  /** Checksums the next publications get. */
  datatype Sums = Sums(fast: Checksum, patch: Checksum, whole: Checksum)

  /** Nothing goes wrong. */
  predicate AllFine(faults: seq<Fault>)
  {
    forall i :: 0 <= i < |faults| ==> faults[i].Fine?
  }

  /** The state on disk is no newer than this event. */
  ghost predicate NotNewer(rules: Rules, disk: Disk, event: nat)
  {
    Load(rules, disk).Some? ==> Load(rules, disk).value.event <= event
  }

  /** The event this process last saved, if it saved one, is not ahead of the disk. */
  ghost predicate Trusted(rules: Rules, disk: Disk, watermark: nat)
  {
    watermark == 0 || (Load(rules, disk).Some? && Load(rules, disk).value.event >= watermark)
  }

  class DiskIndexCache {
    const rules: Rules
    var base: Option<BaseFile>
    var delta: Option<DeltaFile>
    var baseSide: map<Checksum, Coverage>
    var deltaSide: map<Checksum, Coverage>
    // The newest event saved by this process; zero after a restart.
    var watermark: nat

    ghost function OnDisk(): Disk
      reads this
    {
      Disk(base, delta, baseSide, deltaSide)
    }

    constructor (rules: Rules, disk: Disk)
      ensures this.rules == rules && OnDisk() == disk && watermark == 0
    {
      this.rules := rules;
      base, delta, baseSide, deltaSide := disk.base, disk.delta, disk.baseSide, disk.deltaSide;
      watermark := 0;
    }

    /** A restart forgets the watermark and keeps the disk. */
    method Restart()
      modifies this
      ensures OnDisk() == old(OnDisk()) && watermark == 0
    {
      watermark := 0;
    }

    method Read() returns (r: Option<Loaded>)
      ensures r == Load(rules, OnDisk())
    {
      r := Load(rules, Disk(base, delta, baseSide, deltaSide));
    }

    /** One disk step under a fault: it happens or not, and the caller goes on, sees an error, or is gone. */
    method Do(op: Op, fault: Fault) returns (step: Step)
      modifies this
      ensures watermark == old(watermark)
      ensures OnDisk() == if fault.Fine? || fault.applied then Applied(old(OnDisk()), op) else old(OnDisk())
      ensures step == match fault { case Fine => Stepped case Failed(_) => Erred case Crashed(_) => Stopped }
    {
      step := match fault { case Fine => Stepped case Failed(_) => Erred case Crashed(_) => Stopped };
      if fault.Fine? || fault.applied {
        match op {
          case PutBaseSide(sum, cov) => baseSide := baseSide[sum := cov];
          case PutDeltaSide(sum, cov) => deltaSide := deltaSide[sum := cov];
          case RenameBase(file) => base := Some(file);
          case RenameDelta(file) => delta := Some(file);
          case RemoveDelta => delta := None;
        }
      }
    }

    /** Sidecar, then index; where it stops is how far it got. */
    method PublishCovered(side: Op, index: Op, faults: seq<Fault>) returns (step: Step, ghost k: nat)
      requires |faults| == 2
      modifies this
      ensures watermark == old(watermark) && k <= 2
      ensures OnDisk() == if k == 0 then old(OnDisk()) else if k == 1 then Applied(old(OnDisk()), side) else Applied(Applied(old(OnDisk()), side), index)
      ensures step.Stepped? ==> k == 2
      ensures AllFine(faults) ==> step.Stepped?
    {
      hide Applied;
      step := Do(side, faults[0]);
      k := if faults[0].Fine? || faults[0].applied then 1 else 0;
      if !step.Stepped? {
        return;
      }
      step := Do(index, faults[1]);
      k := if faults[1].Fine? || faults[1].applied then 2 else 1;
    }

    /** Publishes a delta under its coverage. The reader keeps what it had, or gets the new state. */
    method PublishDelta(sum: Checksum, tree: Tree, event: nat, blocked: seq<Path>, faults: seq<Fault>) returns (step: Step)
      requires |faults| == 2 && Canonical(rules, blocked) == Some(blocked)
      requires base.Some? && Load(rules, OnDisk()).Some? && event >= base.value.event
      requires SettledDelta(OnDisk(), sum, Coverage(base.value.sum, sum, event, blocked))
      modifies this
      ensures watermark == old(watermark) && base == old(base) && baseSide == old(baseSide)
      ensures Load(rules, OnDisk()) == Load(rules, old(OnDisk())) || Load(rules, OnDisk()) == Some(Loaded(tree, event, blocked))
      ensures step.Stepped? ==> Load(rules, OnDisk()) == Some(Loaded(tree, event, blocked)) && delta.Some? && delta.value.sum == sum
      ensures AllFine(faults) ==> step.Stepped?
      ensures delta == old(delta) || (delta.Some? && delta.value.sum == sum && delta.value.baseSum == base.value.sum)
      ensures forall x :: SettledDelta(old(OnDisk()), x, Coverage(base.value.sum, x, event, blocked)) ==> SettledDelta(OnDisk(), x, Coverage(base.value.sum, x, event, blocked))
    {
      hide Load, Canonical;
      ghost var disk := OnDisk();
      var cov := Coverage(base.value.sum, sum, event, blocked);
      var file := DeltaFile(sum, base.value.sum, event, tree, true, true, Bound(rules.digest(blocked)));
      ghost var k;
      step, k := PublishCovered(PutDeltaSide(sum, cov), RenameDelta(file), faults);
      Unrolled2(disk, DeltaOps(rules, sum, base.value.sum, tree, event, blocked), k);
      DeltaPublicationIsAtomic(rules, disk, sum, tree, event, blocked, k);
    }

    /** Publishes a base under its coverage, then removes the delta of the old one. */
    method PublishBase(sum: Checksum, tree: Tree, event: nat, blocked: seq<Path>, encodes: bool, compacted: bool, faults: seq<Fault>) returns (r: Result)
      requires |faults| == 3 && Canonical(rules, blocked) == Some(blocked) && FreshBase(OnDisk(), sum)
      modifies this
      ensures Load(rules, OnDisk()) == Load(rules, old(OnDisk())) || Load(rules, OnDisk()) == Some(Loaded(tree, event, blocked))
      ensures r.Saved? ==> Load(rules, OnDisk()) == Some(Loaded(tree, event, blocked)) && watermark == event
      ensures r.Saved? ==> r == Saved(false, compacted) && base.Some? && base.value.sum == sum && delta.None?
      ensures if !encodes then r == Refused else r.Saved? || ((r.DiskError? || r.Gone?) && !AllFine(faults))
      ensures watermark == old(watermark) || (watermark == event && Load(rules, OnDisk()) == Some(Loaded(tree, event, blocked)))
      ensures base == old(base) || (base.Some? && base.value.sum == sum && base.value.event == event && base.value.sound)
      ensures delta == old(delta) || delta.None?
    {
      hide Load, Canonical;
      if !encodes {
        return Refused;
      }
      ghost var disk := OnDisk();
      ghost var ops := BaseOps(rules, sum, tree, event, blocked);
      var step;
      ghost var k;
      step, k := PublishCovered(PutBaseSide(sum, Coverage(sum, 0, event, blocked)), RenameBase(BaseFile(sum, event, tree, true, Bound(rules.digest(blocked)))), faults[..2]);
      Unrolled3(disk, ops, k);
      BasePublicationIsAtomic(rules, disk, sum, tree, event, blocked, k);
      if !step.Stepped? {
        return if step.Erred? then DiskError else Gone;
      }
      watermark := event;
      step := Do(RemoveDelta, faults[2]);
      Unrolled3(disk, ops, 3);
      BasePublicationIsAtomic(rules, disk, sum, tree, event, blocked, 3);
      if !step.Stepped? {
        return if step.Erred? then DiskError else Gone;
      }
      return Saved(false, compacted);
    }

    /** A snapshot's mapped base, if it is the file on disk, is that file. */
    ghost predicate MappedIntact(snap: Snapshot)
      reads this
    {
      snap.mapped.Some? && base.Some? && base.value.sum == snap.mapped.value.0 ==> base.value.sound && base.value.event == snap.mapped.value.1
    }

    ghost predicate Ready(snap: Snapshot, blocked: seq<Path>, sums: Sums)
      reads this
    {
      && Canonical(rules, blocked) == Some(blocked) && MappedIntact(snap)
      && FreshBase(OnDisk(), sums.whole) && FreshDelta(OnDisk(), sums.fast) && FreshDelta(OnDisk(), sums.patch)
    }

    /** The snapshot edits the base on disk, whose coverage stands, no newer delta is in the way, and its edits check. */
    ghost predicate Patchable(snap: Snapshot, event: nat)
      reads this
    {
      && snap.mapped.Some? && base.Some? && base.value.sum == snap.mapped.value.0 && RestoreBase(rules, OnDisk(), base.value).Some?
      && (delta.Some? ==> delta.value.headed && delta.value.baseSum == base.value.sum && delta.value.event <= event)
      && event >= snap.mapped.value.1 && snap.editsOk
    }

    /** Patches straight from the overrides. Not handled means the full path decides. */
    method PersistOverrides(snap: Snapshot, event: nat, blocked: seq<Path>, sums: Sums, faults: seq<Fault>) returns (handled: bool, r: Result)
      requires |faults| == 3 && Ready(snap, blocked, sums)
      modifies this
      ensures Load(rules, OnDisk()) == Load(rules, old(OnDisk())) || Load(rules, OnDisk()) == Some(Loaded(snap.tree, event, blocked))
      ensures Load(rules, old(OnDisk())).Some? && Load(rules, OnDisk()) != Load(rules, old(OnDisk())) ==> event >= Load(rules, old(OnDisk())).value.event
      ensures handled && r.Saved? ==> Load(rules, OnDisk()) == Some(Loaded(snap.tree, event, blocked)) && watermark == event
      ensures watermark == old(watermark) || (watermark == event && Load(rules, OnDisk()) == Some(Loaded(snap.tree, event, blocked)))
      ensures base == old(base) || (handled && base.Some? && base.value.sum == sums.whole && base.value.event == event && base.value.sound)
      ensures delta == old(delta) || delta.None? || (old(base).Some? && delta.value.sum == sums.fast && delta.value.baseSum == old(base).value.sum)
      ensures !handled ==> base == old(base) && (base.Some? ==> SettledDelta(OnDisk(), sums.patch, Coverage(base.value.sum, sums.patch, event, blocked)))
      ensures !handled ==> FreshBase(OnDisk(), sums.whole) && watermark == old(watermark)
      ensures !handled && AllFine(faults) ==> OnDisk() == old(OnDisk()) && !old(Patchable(snap, event))
      ensures handled ==> match r
        case Saved(patched, compacted) =>
          if patched then !compacted && base == old(base) && delta.Some? && delta.value.sum == sums.fast
          else compacted && base.Some? && base.value.sum == sums.whole && delta.None?
        case Stale => !NotNewer(rules, old(OnDisk()), event)
        case Refused => !snap.encodes
        case _ => !AllFine(faults)
      ensures handled && !r.Stale? ==> old(Patchable(snap, event))
      ensures !handled ==> OnDisk() == old(OnDisk()) || old(Patchable(snap, event))
      ensures old(Patchable(snap, event)) ==> NotNewer(rules, old(OnDisk()), event)
      ensures handled && r.Saved? ==> (r.delta <==> snap.fastCount <= COMPACT_THRESHOLD)
    {
      r := Refused;
      if snap.mapped.None? {
        return false, r;
      }
      var (sum, baseEvent) := snap.mapped.value;
      if base.None? || base.value.sum != sum {
        return false, r;
      }
      if RestoreBase(rules, Disk(base, delta, baseSide, deltaSide), base.value).None? {
        return false, r;
      }
      var previous := baseEvent;
      if delta.Some? {
        if !delta.value.headed || delta.value.baseSum != sum {
          return false, r;
        }
        previous := if delta.value.event > previous then delta.value.event else previous;
      }
      if event < baseEvent {
        return true, Stale;
      }
      if event < previous {
        return false, r;
      }
      if !snap.editsOk {
        return false, r;
      }
      if snap.fastCount > COMPACT_THRESHOLD {
        r := PublishBase(sums.whole, snap.tree, event, blocked, snap.encodes, true, faults);
        return true, r;
      }
      var step := PublishDelta(sums.fast, snap.tree, event, blocked, faults[..2]);
      if step.Stopped? {
        return true, Gone;
      }
      if step.Erred? {
        return false, r;
      }
      watermark := event;
      return true, Saved(true, false);
    }

    /** Saves a snapshot: by patch when that is possible and asked for, as a new base otherwise. Never moves the event back. */
    method Persist(snap: Snapshot, event: nat, incremental: bool, sums: Sums, faults: seq<Fault>) returns (r: Result)
      requires |faults| == 8 && MappedIntact(snap)
      requires FreshBase(OnDisk(), sums.whole) && FreshDelta(OnDisk(), sums.fast) && FreshDelta(OnDisk(), sums.patch)
      modifies this
      ensures Load(rules, OnDisk()) == Load(rules, old(OnDisk()))
           || (Canonical(rules, snap.blocked).Some? && Load(rules, OnDisk()) == Some(Loaded(snap.tree, event, Canonical(rules, snap.blocked).value)))
      ensures Load(rules, old(OnDisk())).Some? ==> Load(rules, OnDisk()).Some? && Load(rules, OnDisk()).value.event >= Load(rules, old(OnDisk())).value.event
      ensures r.Saved? ==> Canonical(rules, snap.blocked).Some? && Load(rules, OnDisk()) == Some(Loaded(snap.tree, event, Canonical(rules, snap.blocked).value)) && watermark == event >= old(watermark)
      ensures r.Stale? ==> Canonical(rules, snap.blocked).Some? && (event < old(watermark) || !NotNewer(rules, old(OnDisk()), event))
      ensures Canonical(rules, snap.blocked).Some? && (event < old(watermark) || (snap.valid && !NotNewer(rules, old(OnDisk()), event))) ==> r.Stale?
      ensures r.Refused? ==> Canonical(rules, snap.blocked).None? || !snap.valid || !snap.encodes
      ensures r.DiskError? || r.Gone? ==> !AllFine(faults)
      ensures r.Saved? ==> if r.delta then incremental && !r.compacted && base == old(base) && delta.Some? && delta.value.sum in {sums.fast, sums.patch}
                           else r.compacted == incremental && base.Some? && base.value.sum == sums.whole && delta.None?
      ensures AllFine(faults) && r.Saved? ==> (r.delta <==> incremental && if old(Patchable(snap, event)) then snap.fastCount <= COMPACT_THRESHOLD else old(Diffable(snap, true)))
      ensures AllFine(faults) && Canonical(rules, snap.blocked).Some? && event >= old(watermark) && NotNewer(rules, old(OnDisk()), event) && snap.valid && snap.encodes
              ==> r.Saved?
      ensures watermark == old(watermark) || (watermark == event > old(watermark) && Load(rules, OnDisk()).Some? && Load(rules, OnDisk()).value.event == event)
      ensures base == old(base) || (base.Some? && base.value.sum == sums.whole && base.value.event == event && base.value.sound)
      ensures delta == old(delta) || delta.None? || (old(base).Some? && delta.value.sum in {sums.fast, sums.patch} && delta.value.baseSum == old(base).value.sum)
    {
      hide Load, Canonical;
      var canonical := Canonical(rules, snap.blocked);
      if canonical.None? {
        return Refused;
      }
      var blocked := canonical.value;
      CanonicalTwice(rules, snap.blocked);
      if event < watermark {
        return Stale;
      }
      if incremental {
        var handled;
        handled, r := PersistOverrides(snap, event, blocked, sums, faults[..3]);
        if handled {
          return;
        }
      }
      r := PersistFull(snap, event, incremental, blocked, sums, faults[3..]);
    }

    /** Publishes an index built and decoded straight from a spilled scan, under the same rules as a full save. */
    method PublishSpill(tree: Tree, event: nat, listed: seq<Path>, built: bool, sum: Checksum, faults: seq<Fault>) returns (r: Result)
      requires |faults| == 3 && FreshBase(OnDisk(), sum)
      modifies this
      ensures Load(rules, OnDisk()) == Load(rules, old(OnDisk()))
           || (Canonical(rules, listed).Some? && Load(rules, OnDisk()) == Some(Loaded(tree, event, Canonical(rules, listed).value)))
      ensures Load(rules, old(OnDisk())).Some? ==> Load(rules, OnDisk()).Some? && Load(rules, OnDisk()).value.event >= Load(rules, old(OnDisk())).value.event
      ensures r.Saved? ==> Canonical(rules, listed).Some? && Load(rules, OnDisk()) == Some(Loaded(tree, event, Canonical(rules, listed).value)) && watermark == event >= old(watermark)
      ensures r.Stale? <==> built && Canonical(rules, listed).Some? && (event < old(watermark) || !NotNewer(rules, old(OnDisk()), event))
      ensures r.Refused? <==> !built || Canonical(rules, listed).None?
      ensures r.DiskError? || r.Gone? ==> !AllFine(faults)
      ensures r.Saved? ==> r == Saved(false, false) && base.Some? && base.value.sum == sum && delta.None?
      ensures watermark == old(watermark) || (watermark == event > old(watermark) && Load(rules, OnDisk()).Some? && Load(rules, OnDisk()).value.event == event)
      ensures base == old(base) || (base.Some? && base.value.sum == sum && base.value.event == event && base.value.sound)
      ensures delta == old(delta) || delta.None?
    {
      hide Load, Canonical;
      if !built {
        return Refused;
      }
      var canonical := Canonical(rules, listed);
      if canonical.None? {
        return Refused;
      }
      CanonicalTwice(rules, listed);
      if event < watermark {
        return Stale;
      }
      var previous := Read();
      if previous.Some? && event < previous.value.event {
        return Stale;
      }
      r := PublishBase(sum, tree, event, canonical.value, true, false, faults);
    }

    /** An incremental save can patch the base that loads, and the patch is not too long. */
    ghost predicate Diffable(snap: Snapshot, incremental: bool)
      reads this
    {
      && incremental && Load(rules, OnDisk()).Some? && base.Some?
      && snap.patch(base.value.sum).Some? && snap.patch(base.value.sum).value <= COMPACT_THRESHOLD
    }

    method PersistFull(snap: Snapshot, event: nat, incremental: bool, blocked: seq<Path>, sums: Sums, faults: seq<Fault>) returns (r: Result)
      requires |faults| == 5 && Canonical(rules, blocked) == Some(blocked) && FreshBase(OnDisk(), sums.whole)
      requires base.Some? ==> SettledDelta(OnDisk(), sums.patch, Coverage(base.value.sum, sums.patch, event, blocked))
      modifies this
      ensures Load(rules, OnDisk()) == Load(rules, old(OnDisk())) || Load(rules, OnDisk()) == Some(Loaded(snap.tree, event, blocked))
      ensures Load(rules, old(OnDisk())).Some? && Load(rules, OnDisk()) != Load(rules, old(OnDisk())) ==> event >= Load(rules, old(OnDisk())).value.event
      ensures r.Saved? ==> Load(rules, OnDisk()) == Some(Loaded(snap.tree, event, blocked)) && watermark == event
      ensures match r
        case Saved(patched, compacted) =>
          if patched then incremental && !compacted && base == old(base) && delta.Some? && delta.value.sum == sums.patch
          else compacted == incremental && base.Some? && base.value.sum == sums.whole && delta.None?
        case Stale => snap.valid && !NotNewer(rules, old(OnDisk()), event)
        case Refused => !snap.valid || (!snap.encodes && (AllFine(faults) ==> !old(Diffable(snap, incremental))))
        case _ => !AllFine(faults)
      ensures !snap.valid ==> r == Refused
      ensures snap.valid && !NotNewer(rules, old(OnDisk()), event) ==> r == Stale
      ensures AllFine(faults) && r.Saved? ==> (r.delta <==> old(Diffable(snap, incremental)))
      ensures watermark == old(watermark) || (watermark == event && Load(rules, OnDisk()) == Some(Loaded(snap.tree, event, blocked)))
      ensures base == old(base) || (base.Some? && base.value.sum == sums.whole && base.value.event == event && base.value.sound)
      ensures delta == old(delta) || delta.None? || (old(base).Some? && delta.value.sum == sums.patch && delta.value.baseSum == old(base).value.sum)
    {
      hide Canonical, SettledDelta, Restore;
      if !snap.valid {
        return Refused;
      }
      var previous := Read();
      if previous.Some? && event < previous.value.event {
        return Stale;
      }
      if previous.Some? { LoadedNotBefore(rules, OnDisk()); }
      var count := if incremental && previous.Some? then snap.patch(base.value.sum) else None;
      if count.Some? && count.value <= COMPACT_THRESHOLD {
        var step := PublishDelta(sums.patch, snap.tree, event, blocked, faults[..2]);
        if step.Stopped? {
          return Gone;
        }
        if step.Stepped? {
          watermark := event;
          return Saved(true, false);
        }
      }
      r := PublishBase(sums.whole, snap.tree, event, blocked, snap.encodes, incremental, faults[2..]);
    }
  }

  // -- Sessions ------------------------------------------------------------------------------

  /** One call, the disk faults it meets, and whether the process restarts after it. A crash always restarts it. A spilled
      scan brings no tree of its own: it is built into an index first, which the snapshot's flag says went well or not. */
  datatype Call = Call(snap: Snapshot, event: nat, incremental: bool, spilled: bool, sums: Sums, faults: seq<Fault>, restart: bool)

  /** The checksums a disk knows. */
  function Known(disk: Disk): set<Checksum>
  {
    (if disk.base.Some? then {disk.base.value.sum} else {}) + (if disk.delta.Some? then {disk.delta.value.sum, disk.delta.value.baseSum} else {})
  }

  function SumSet(sums: Sums): set<Checksum>
  {
    {sums.fast, sums.patch, sums.whole}
  }

  /** The base a mapped snapshot edits carries the event it was read with: a checksum names one file. */
  predicate Names(c: Call, sum: Checksum, event: nat)
  {
    c.snap.mapped.Some? && c.snap.mapped.value.0 == sum ==> c.snap.mapped.value.1 == event
  }

  /** Distinct publications get distinct checksums, and checksums name files. */
  ghost predicate Distinguished(disk: Disk, calls: seq<Call>)
  {
    && (forall i :: 0 <= i < |calls| ==> |calls[i].faults| == 8 && SumSet(calls[i].sums) !! Known(disk))
    && (forall i, j :: 0 <= i < j < |calls| ==> SumSet(calls[i].sums) !! SumSet(calls[j].sums))
    && (forall i :: 0 <= i < |calls| && disk.base.Some? ==> (disk.base.value.sound || calls[i].snap.mapped.None?) && Names(calls[i], disk.base.value.sum, disk.base.value.event))
    && (forall i, j :: 0 <= i < |calls| && 0 <= j < |calls| ==> Names(calls[i], calls[j].sums.whole, calls[j].event))
  }

  /** What call i would have readers see. */
  predicate SeenAs(rules: Rules, c: Call, l: Loaded)
  {
    l.tree == c.snap.tree && l.event == c.event && Canonical(rules, c.snap.blocked) == Some(l.blocked)
  }

  /** The state a reader may find after some calls: what was there before, or one of the publications, whole. */
  ghost predicate Whole(rules: Rules, disk: Disk, calls: seq<Call>, n: nat, l: Option<Loaded>)
    requires n <= |calls|
  {
    l == Load(rules, disk) || (l.Some? && exists i :: 0 <= i < n && SeenAs(rules, calls[i], l.value))
  }

  /** Whether the base on disk after n calls is the first one or one of theirs. */
  ghost predicate BaseFrom(disk: Disk, calls: seq<Call>, n: nat, b: Option<BaseFile>)
    requires n <= |calls|
  {
    b == disk.base || (b.Some? && b.value.sound && exists i :: 0 <= i < n && b.value.sum == calls[i].sums.whole && b.value.event == calls[i].event)
  }

  function Issued(calls: seq<Call>, n: nat): set<Checksum>
    requires n <= |calls|
  {
    set i, x | 0 <= i < n && x in SumSet(calls[i].sums) :: x
  }

  lemma CallIsReady(disk: Disk, calls: seq<Call>, n: nat, c: DiskIndexCache)
    requires Distinguished(disk, calls) && n < |calls| && BaseFrom(disk, calls, n, c.base) && Known(c.OnDisk()) <= Known(disk) + Issued(calls, n)
    ensures c.MappedIntact(calls[n].snap)
    ensures FreshBase(c.OnDisk(), calls[n].sums.whole) && FreshDelta(c.OnDisk(), calls[n].sums.fast) && FreshDelta(c.OnDisk(), calls[n].sums.patch)
  {
    forall x | x in Issued(calls, n) ensures x !in SumSet(calls[n].sums) {
      var i :| 0 <= i < n && x in SumSet(calls[i].sums);
      assert SumSet(calls[i].sums) !! SumSet(calls[n].sums);
    }
    assert SumSet(calls[n].sums) !! Known(c.OnDisk());
    if c.base != disk.base {
      var i :| 0 <= i < n && c.base.value.sum == calls[i].sums.whole && c.base.value.event == calls[i].event;
      assert Names(calls[n], calls[i].sums.whole, calls[i].event);
    }
  }

  /** A call that has to be saved: in order, sound, no older than what the process saved or the disk holds, and undisturbed. */
  ghost predicate MustSave(rules: Rules, disk: Disk, watermark: nat, c: Call)
  {
    && AllFine(c.faults) && Canonical(rules, c.snap.blocked).Some? && c.event >= watermark && NotNewer(rules, disk, c.event)
    && (c.spilled || c.snap.valid) && c.snap.encodes
  }

  /** Makes the calls one after the other and notes what a reader finds after each. From a loadable disk the reported
      event never goes back and the index never stops loading; every state found is the first one or a publication, whole,
      and is read from one index under the coverage that index is bound to. */
  method Session(cache: DiskIndexCache, calls: seq<Call>) returns (seen: seq<Option<Loaded>>, ghost disks: seq<Disk>, ghost marks: seq<nat>)
    requires Distinguished(cache.OnDisk(), calls)
    modifies cache
    ensures |seen| == |calls| + 1 && seen[0] == Load(cache.rules, old(cache.OnDisk()))
    ensures forall n :: 0 <= n < |seen| ==> Whole(cache.rules, old(cache.OnDisk()), calls, n, seen[n])
    ensures |disks| == |seen| && disks[|calls|] == cache.OnDisk()
    ensures forall n :: 0 <= n < |seen| ==> seen[n] == Load(cache.rules, disks[n]) && Paired(cache.rules, disks[n])
    ensures forall i, j :: 0 <= i < j < |seen| && seen[i].Some? ==> seen[j].Some? && seen[j].value.event >= seen[i].value.event
    ensures |marks| == |seen| && marks[0] == old(cache.watermark)
    ensures forall n :: 0 <= n < |calls| && MustSave(cache.rules, disks[n], marks[n], calls[n]) ==> seen[n + 1].Some? && SeenAs(cache.rules, calls[n], seen[n + 1].value)
    ensures Trusted(cache.rules, disks[0], marks[0]) ==> forall n :: 0 <= n < |marks| ==> Trusted(cache.rules, disks[n], marks[n])
  {
    hide Load, Canonical, Distinguished, Whole, BaseFrom, Known, Issued, FreshBase, FreshDelta, Paired, MustSave, SeenAs, Trusted;
    ghost var disk := cache.OnDisk();
    var first := cache.Read();
    seen, disks, marks := [first], [disk], [cache.watermark];
    LoadIsPaired(cache.rules, disk);
    SessionStarts(cache.rules, disk, calls);
    for n := 0 to |calls|
      invariant |seen| == n + 1 && seen[0] == Load(cache.rules, disk) && seen[n] == Load(cache.rules, cache.OnDisk())
      invariant |disks| == |seen| && disks[n] == cache.OnDisk()
      invariant forall k :: 0 <= k <= n ==> seen[k] == Load(cache.rules, disks[k]) && Paired(cache.rules, disks[k])
      invariant forall k :: 0 <= k <= n ==> Whole(cache.rules, disk, calls, k, seen[k])
      invariant forall i, j :: 0 <= i < j < |seen| && seen[i].Some? ==> seen[j].Some? && seen[j].value.event >= seen[i].value.event
      invariant BaseFrom(disk, calls, n, cache.base) && Known(cache.OnDisk()) <= Known(disk) + Issued(calls, n)
      invariant |marks| == n + 1 && marks[0] == old(cache.watermark) && marks[n] == cache.watermark
      invariant forall k :: 0 <= k < n && MustSave(cache.rules, disks[k], marks[k], calls[k]) ==> seen[k + 1].Some? && SeenAs(cache.rules, calls[k], seen[k + 1].value)
      invariant Trusted(cache.rules, disks[0], marks[0]) ==> forall k :: 0 <= k <= n ==> Trusted(cache.rules, disks[k], marks[k])
    {
      var c := calls[n];
      CallIsReady(disk, calls, n, cache);
      assert |c.faults| == 8 by { EightFaults(disk, calls, n); }
      ghost var before := cache.OnDisk();
      Serve(cache, c);
      SessionNext(cache.rules, disk, calls, n, before, cache.OnDisk());
      var now := cache.Read();
      EventKept(seen, now);
      LoadIsPaired(cache.rules, cache.OnDisk());
      seen, disks, marks := seen + [now], disks + [cache.OnDisk()], marks + [cache.watermark];
    }
  }

  /** One call, and the restart that may follow it. */
  method Serve(cache: DiskIndexCache, c: Call)
    requires |c.faults| == 8 && cache.MappedIntact(c.snap)
    requires FreshBase(cache.OnDisk(), c.sums.whole) && FreshDelta(cache.OnDisk(), c.sums.fast) && FreshDelta(cache.OnDisk(), c.sums.patch)
    modifies cache
    ensures Load(cache.rules, cache.OnDisk()) == Load(cache.rules, old(cache.OnDisk()))
         || (Load(cache.rules, cache.OnDisk()).Some? && SeenAs(cache.rules, c, Load(cache.rules, cache.OnDisk()).value))
    ensures var was, now := Load(cache.rules, old(cache.OnDisk())), Load(cache.rules, cache.OnDisk()); was.Some? ==> now.Some? && now.value.event >= was.value.event
    ensures cache.base == old(cache.base)
         || (cache.base.Some? && cache.base.value.sum == c.sums.whole && cache.base.value.event == c.event && cache.base.value.sound)
    ensures cache.delta == old(cache.delta) || cache.delta.None?
         || (old(cache.base).Some? && cache.delta.value.sum in {c.sums.fast, c.sums.patch} && cache.delta.value.baseSum == old(cache.base).value.sum)
    ensures MustSave(cache.rules, old(cache.OnDisk()), old(cache.watermark), c) ==>
      Load(cache.rules, cache.OnDisk()).Some? && SeenAs(cache.rules, c, Load(cache.rules, cache.OnDisk()).value)
    ensures Trusted(cache.rules, old(cache.OnDisk()), old(cache.watermark)) ==> Trusted(cache.rules, cache.OnDisk(), cache.watermark)
  {
    hide Load, Canonical, FreshBase, FreshDelta;
    var r;
    if c.spilled {
      r := cache.PublishSpill(c.snap.tree, c.event, c.snap.blocked, c.snap.encodes, c.sums.whole, c.faults[..3]);
    } else {
      r := cache.Persist(c.snap, c.event, c.incremental, c.sums, c.faults);
    }
    if c.restart || r.Gone? {
      cache.Restart();
    }
  }

  lemma EightFaults(disk: Disk, calls: seq<Call>, n: nat)
    requires Distinguished(disk, calls) && n < |calls|
    ensures |calls[n].faults| == 8
  {
  }

  lemma SessionStarts(rules: Rules, disk: Disk, calls: seq<Call>)
    ensures Whole(rules, disk, calls, 0, Load(rules, disk)) && BaseFrom(disk, calls, 0, disk.base) && Known(disk) <= Known(disk) + Issued(calls, 0)
  {
  }

  lemma EventKept(seen: seq<Option<Loaded>>, now: Option<Loaded>)
    requires seen != [] && forall i, j :: 0 <= i < j < |seen| && seen[i].Some? ==> seen[j].Some? && seen[j].value.event >= seen[i].value.event
    requires seen[|seen| - 1].Some? ==> now.Some? && now.value.event >= seen[|seen| - 1].value.event
    ensures var s := seen + [now]; forall i, j :: 0 <= i < j < |s| && s[i].Some? ==> s[j].Some? && s[j].value.event >= s[i].value.event
  {
    var s := seen + [now];
    forall i, j | 0 <= i < j < |s| && s[i].Some? ensures s[j].Some? && s[j].value.event >= s[i].value.event {
      if j == |seen| {
        assert i < |seen| - 1 ==> seen[|seen| - 1].Some?;
      }
    }
  }

  lemma SessionNext(rules: Rules, disk: Disk, calls: seq<Call>, n: nat, before: Disk, after: Disk)
    requires n < |calls| && Whole(rules, disk, calls, n, Load(rules, before)) && BaseFrom(disk, calls, n, before.base) && Known(before) <= Known(disk) + Issued(calls, n)
    requires Load(rules, after) == Load(rules, before) || (Load(rules, after).Some? && SeenAs(rules, calls[n], Load(rules, after).value))
    requires after.base == before.base || (after.base.Some? && after.base.value.sum == calls[n].sums.whole && after.base.value.event == calls[n].event && after.base.value.sound)
    requires after.delta == before.delta || after.delta.None? || (before.base.Some? && after.delta.value.sum in {calls[n].sums.fast, calls[n].sums.patch} && after.delta.value.baseSum == before.base.value.sum)
    ensures Whole(rules, disk, calls, n + 1, Load(rules, after)) && BaseFrom(disk, calls, n + 1, after.base) && Known(after) <= Known(disk) + Issued(calls, n + 1)
  {
    hide Load, Canonical;
    assert Issued(calls, n) <= Issued(calls, n + 1);
    assert SumSet(calls[n].sums) <= Issued(calls, n + 1);
    assert Known(after) <= Known(before) + SumSet(calls[n].sums);
  }

  lemma LoadedNotBefore(rules: Rules, disk: Disk)
    requires Load(rules, disk).Some?
    ensures disk.base.Some? && Load(rules, disk).value.event >= disk.base.value.event
  {
  }
}
