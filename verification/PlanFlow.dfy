/** The cleanup plan's step machine: the steps of a plan, their execution, and when it counts as done. */
module PlanFlow {
  import opened Words

  datatype Kind = File | Tree | GitWorktree | Contents | Docker | Brew | Go | Pnpm | Snapshot | Trash | Native | Registration | OfficialUninstall

  datatype Operation = Operation(kind: Kind, reference: string, name: string, registration: string)

  datatype Target = Target(path: string, operation: Operation)

  /** What must hold afterwards for a target to count as cleaned. */
  datatype Condition =
    | PathAbsent(path: string) | ContentsEmpty(path: string) | ReferenceAbsent(reference: string) | SnapshotAbsent(name: string)
    | PreviewEmpty | CacheAbsent(path: string) | StoreHealthy(path: string) | TrashEmpty(root: string)
    | WorktreeAbsent(checkout: string, registration: string) | RegistrationAbsent(identifier: string) | ArtifactsAbsent(root: string)

  datatype SourceAction = RevalidateSource | OfficialOperation | SupplementCleanup | VerifyCompletion | RemoveRecords

  datatype Action = Revalidate | Apply(operation: Operation) | Verify(condition: Option<Condition>) | Unregister(registration: string) | Source(action: SourceAction)

  datatype Step = Step(id: nat, target: nat, dependsOn: seq<nat>, action: Action)

  /** A plan: its targets, whether its rule defines an application, and whether an installation was captured. */
  datatype Plan = Plan(targets: seq<Target>, app: bool, installed: bool)

  function Completion(t: Target): (c: Condition)
  {
    match t.operation.kind
    case File => PathAbsent(t.path)
    case Tree => PathAbsent(t.path)
    case Contents => ContentsEmpty(t.path)
    case Docker => ReferenceAbsent(t.operation.reference)
    case Snapshot => SnapshotAbsent(t.operation.name)
    case Brew => PreviewEmpty
    case Go => CacheAbsent(t.path)
    case Pnpm => StoreHealthy(t.path)
    case Trash => TrashEmpty(t.path)
    case GitWorktree => WorktreeAbsent(t.path, t.operation.registration)
    case Native => RegistrationAbsent(t.path)
    case Registration => RegistrationAbsent(t.path)
    case OfficialUninstall => ArtifactsAbsent(t.path)
  }

  // ---------------------------------------------------------------- the steps of a plan

  function ActionsFor(plan: Plan, t: Target): (actions: seq<Action>)
    ensures actions != []
  {
    if t.operation.kind == OfficialUninstall && plan.app then
      [Source(RevalidateSource), Source(OfficialOperation), Source(SupplementCleanup), Source(VerifyCompletion), Source(RemoveRecords)]
    else
      [Revalidate, Apply(t.operation)]
      + (if t.operation.kind == GitWorktree then [Verify(Some(PathAbsent(t.path))), Unregister(t.operation.registration)] else [])
      + [Verify(Some(Completion(t)))]
  }

  /** The actions of one target as steps, numbered on from `first`, each depending on the one before. */
  function Chain(actions: seq<Action>, first: nat, target: nat): (steps: seq<Step>)
    ensures |steps| == |actions|
  {
    seq(|actions|, k requires 0 <= k < |actions| => Step(first + k, target, if k == 0 then [] else [first + k - 1], actions[k]))
  }

  function StepsUpTo(plan: Plan, n: nat): (steps: seq<Step>)
    requires n <= |plan.targets|
  {
    if n == 0 then []
    else
      var before := StepsUpTo(plan, n - 1);
      before + Chain(ActionsFor(plan, plan.targets[n - 1]), |before|, n - 1)
  }

  method Steps(plan: Plan) returns (steps: seq<Step>)
    ensures steps == StepsUpTo(plan, |plan.targets|)
  {
    hide ActionsFor, Chain;
    steps := [];
    for index := 0 to |plan.targets|
      invariant steps == StepsUpTo(plan, index)
    {
      var actions := ActionsFor(plan, plan.targets[index]);
      var first := |steps|;
      ghost var chain := Chain(actions, first, index);
      ghost var before := steps;
      for k := 0 to |actions|
        invariant steps == before + chain[..k]
      {
        var id := |steps|;
        var deps := if id != first then [id - 1] else [];
        ChainEntry(actions, first, index, k);
        steps := steps + [Step(id, index, deps, actions[k])];
        assert chain[..k + 1] == chain[..k] + [chain[k]];
      }
      assert chain[..|actions|] == chain;
    }
  }

  lemma ChainEntry(actions: seq<Action>, first: nat, target: nat, k: nat)
    requires k < |actions|
    ensures Chain(actions, first, target)[k] == Step(first + k, target, if k == 0 then [] else [first + k - 1], actions[k])
  {
  }

  /** Steps are numbered by position, and each waits for exactly the step before it on the same target. */
  lemma {:induction false} StepsAreChained(plan: Plan, n: nat, i: nat)
    requires n <= |plan.targets| && i < |StepsUpTo(plan, n)|
    ensures var steps := StepsUpTo(plan, n);
      && steps[i].id == i && steps[i].target < n
      && steps[i].dependsOn == if i > 0 && steps[i - 1].target == steps[i].target then [i - 1] else []
  {
    hide ActionsFor;
    var before := StepsUpTo(plan, n - 1);
    if i < |before| {
      StepsAreChained(plan, n - 1, i);
    } else if 0 < i == |before| {
      StepsAreChained(plan, n - 1, i - 1);
    }
  }

  /** The steps of one target, in order. */
  function Mine(steps: seq<Step>, index: nat): (mine: seq<Step>)
  {
    if steps == [] then []
    else
      var n := |steps| - 1;
      var before := Mine(steps[..n], index);
      if steps[n].target == index then before + [steps[n]] else before
  }

  lemma {:induction false} MineJoin(a: seq<Step>, b: seq<Step>, index: nat)
    ensures Mine(a + b, index) == Mine(a, index) + Mine(b, index)
  {
    if b == [] {
      assert a + b == a;
    } else {
      var n := |b| - 1;
      MineJoin(a, b[..n], index);
      assert (a + b)[..|a| + n] == a + b[..n];
    }
  }

  lemma {:induction false} MineAllOrNone(s: seq<Step>, target: nat, index: nat)
    requires forall k :: 0 <= k < |s| ==> s[k].target == target
    ensures Mine(s, index) == if target == index then s else []
  {
    if s != [] {
      var n := |s| - 1;
      MineAllOrNone(s[..n], target, index);
      assert s[..n] + [s[n]] == s;
    }
  }

  /** A plan's steps for one target are that target's actions, whatever the other targets are. */
  lemma {:induction false} TargetSteps(plan: Plan, n: nat, index: nat)
    requires index < n <= |plan.targets|
    ensures var mine := Mine(StepsUpTo(plan, n), index); var actions := ActionsFor(plan, plan.targets[index]);
      |mine| == |actions| && forall k :: 0 <= k < |mine| ==> mine[k].action == actions[k]
  {
    hide ActionsFor, Chain, Mine;
    var before := StepsUpTo(plan, n - 1);
    var actions := ActionsFor(plan, plan.targets[n - 1]);
    var chain := Chain(actions, |before|, n - 1);
    forall k | 0 <= k < |chain| ensures chain[k].target == n - 1 && chain[k].action == actions[k] {
      ChainEntry(actions, |before|, n - 1, k);
    }
    MineJoin(before, chain, index);
    MineAllOrNone(chain, n - 1, index);
    if index < n - 1 {
      TargetSteps(plan, n - 1, index);
      assert Mine(StepsUpTo(plan, n), index) == Mine(before, index);
    } else {
      NoneYet(plan, n - 1, index);
      assert Mine(StepsUpTo(plan, n), index) == chain;
    }
  }

  lemma {:induction false} NoneYet(plan: Plan, n: nat, index: nat)
    requires n <= index && n <= |plan.targets|
    ensures Mine(StepsUpTo(plan, n), index) == []
  {
    hide ActionsFor;
    if n > 0 {
      NoneYet(plan, n - 1, index);
      var before := StepsUpTo(plan, n - 1);
      var chain := Chain(ActionsFor(plan, plan.targets[n - 1]), |before|, n - 1);
      MineJoin(before, chain, index);
      MineAllOrNone(chain, n - 1, index);
    }
  }

  // ---------------------------------------------------------------- the executor and its world

  datatype Evidence = Confirmed | Absent | Undetermined

  datatype Spot = Clear | Busy | Unsure

  datatype Status = Succeeded | Failed | Blocked | Unknown | Cancelled

  /** What a cleanup call reports back. */
  datatype Cleaned = Cleaned(ok: nat, skipped: seq<string>, failed: seq<string>, manual: seq<string>)

  /** One call the step machine makes. */
  datatype Call = AskEffective(action: Action) | AskCancelled | AskSupports | AskTarget | AskOccupancy | AskPlan | DoPrepare
                | DoApply | AskCompletion(condition: Condition) | DoUnregister(registration: string) | DoSource(source: SourceAction)

  /** Either executor in any surroundings: each answer may depend on every call made before. The plain one never falls back. */
  datatype World = World(
    fallback: seq<Call> -> bool,
    cancelled: seq<Call> -> bool,
    supports: seq<Call> -> bool,
    targetHolds: seq<Call> -> bool,
    requiresOccupancy: seq<Call> -> bool,
    planHolds: seq<Call> -> bool,
    prepares: seq<Call> -> bool,
    cleans: seq<Call> -> Cleaned,
    completion: (seq<Call>, Condition) -> Evidence,
    unregisters: (seq<Call>, string) -> bool,
    runs: (seq<Call>, SourceAction) -> bool)

  predicate SameKind(a: Action, b: Action)
  {
    match a
    case Revalidate => b.Revalidate?
    case Apply(_) => b.Apply?
    case Verify(_) => b.Verify?
    case Unregister(_) => a == b
    case Source(_) => a == b
  }

  /** What a step comes to: an owner that could not be used falls back to emptying the directory. */
  function Effective(w: World, t: Target, log: seq<Call>, a: Action): (r: Action)
    ensures SameKind(a, r)
  {
    if !w.fallback(log) then a
    else match a
      case Apply(_) => Apply(Operation(Contents, "", "", ""))
      case Verify(_) => Verify(Some(ContentsEmpty(t.path)))
      case _ => a
  }

  datatype StepResult = StepResult(step: Step, status: Status)

  /** The machine between steps: the calls made, whether a dependency failed, the cleanup report, the results. */
  datatype State = State(log: seq<Call>, stuck: bool, cleaned: Cleaned, results: seq<StepResult>)

  const NOTHING: Cleaned := Cleaned(0, [], [], [])

  const START: State := State([], false, NOTHING, [])

  predicate Clean(c: Cleaned) { c.failed == [] && c.skipped == [] && c.manual == [] }

  /** The outcome of one action whose dependencies all succeeded. */
  function Perform(w: World, plan: Plan, t: Target, spot: Spot, log: seq<Call>, cleaned: Cleaned, a: Action): (r: (Status, seq<Call>, Cleaned))
  {
    match a
    case Revalidate => (Revalidation(w, t, spot, log).0, Revalidation(w, t, spot, log).1, cleaned)
    case Apply(_) =>
      var report := w.cleans(log);
      (if report.failed != [] then Failed else if report.skipped != [] || report.manual != [] then Blocked else Succeeded, log + [DoApply], report)
    case Verify(None) => (Unknown, log, cleaned)
    case Verify(Some(c)) =>
      (match w.completion(log, c) case Confirmed => Succeeded case Absent => Failed case Undetermined => Unknown, log + [AskCompletion(c)], cleaned)
    case Unregister(r) => (if w.unregisters(log, r) then Succeeded else Failed, log + [DoUnregister(r)], cleaned)
    case Source(action) => (SourceStep(w, plan, log, action).0, SourceStep(w, plan, log, action).1, cleaned)
  }

  function Revalidation(w: World, t: Target, spot: Spot, log: seq<Call>): (r: (Status, seq<Call>))
  {
    var asked := log + [AskSupports];
    var held := if w.supports(log) && t.operation.kind != OfficialUninstall then asked + [AskTarget] else asked;
    var supported := w.supports(log) && (t.operation.kind == OfficialUninstall || w.targetHolds(asked));
    var seen := held + [AskOccupancy];
    if w.requiresOccupancy(held) && spot != Clear then (if spot == Unsure then Unknown else Blocked, seen)
    else if !supported then (Blocked, seen)
    else if !w.planHolds(seen) then (Blocked, seen + [AskPlan])
    else (if w.prepares(seen + [AskPlan]) then Succeeded else Blocked, seen + [AskPlan] + [DoPrepare])
  }

  function SourceStep(w: World, plan: Plan, log: seq<Call>, action: SourceAction): (r: (Status, seq<Call>))
  {
    if action == RevalidateSource && !w.supports(log) then (Blocked, log + [AskSupports])
    else if action == RevalidateSource && !plan.installed then (Blocked, log + [AskSupports])
    else if action == RevalidateSource && !w.planHolds(log + [AskSupports]) then (Blocked, log + [AskSupports] + [AskPlan])
    else
      var asked := if action == RevalidateSource then log + [AskSupports] + [AskPlan] else log;
      (if w.runs(asked, action) then Succeeded else Failed, asked + [DoSource(action)])
  }

  function Advance(w: World, plan: Plan, t: Target, spot: Spot, s: State, step: Step): (r: State)
  {
    var action := Effective(w, t, s.log, step.action);
    var log := s.log + [AskEffective(step.action)];
    var actual := step.(action := action);
    if s.stuck then State(log, true, s.cleaned, s.results + [StepResult(actual, Blocked)])
    else if w.cancelled(log) then State(log + [AskCancelled], true, s.cleaned, s.results + [StepResult(actual, Cancelled)])
    else
      var (status, calls, cleaned) := Perform(w, plan, t, spot, log + [AskCancelled], s.cleaned, action);
      State(calls, status != Succeeded, cleaned, s.results + [StepResult(actual, status)])
  }

  function Run(w: World, plan: Plan, t: Target, spot: Spot, steps: seq<Step>): (s: State)
  {
    if steps == [] then START
    else Advance(w, plan, t, spot, Run(w, plan, t, spot, steps[..|steps| - 1]), steps[|steps| - 1])
  }

  // ---------------------------------------------------------------- what every run keeps

  /** Calls that change the target or its registrations. */
  predicate Touches(c: Call)
  {
    c == DoApply || c.DoUnregister? || (c.DoSource? && c.source != RevalidateSource)
  }

  /** Results succeed up to some step; from the first that does not, every later one is blocked. */
  ghost predicate StopsAtFirstFailure(results: seq<StepResult>)
  {
    forall i, j :: 0 <= i < j < |results| && results[i].status != Succeeded ==> results[j].status == Blocked
  }

  ghost predicate AllSucceeded(results: seq<StepResult>)
  {
    forall i :: 0 <= i < |results| ==> results[i].status == Succeeded
  }

  lemma {:induction false} RunStops(w: World, plan: Plan, t: Target, spot: Spot, steps: seq<Step>)
    ensures var s := Run(w, plan, t, spot, steps);
      |s.results| == |steps| && StopsAtFirstFailure(s.results) && (s.stuck <==> !AllSucceeded(s.results))
  {
    hide Perform;
    if steps != [] {
      var n := |steps| - 1;
      RunStops(w, plan, t, spot, steps[..n]);
      var before, s := Run(w, plan, t, spot, steps[..n]), Run(w, plan, t, spot, steps);
      assert s.results[..n] == before.results;
      assert s.results[n].status == Succeeded ==> !before.stuck;
    }
  }

  /** Once stuck, the later steps make no call but to name their effective action, and change no report. */
  lemma {:induction false} StuckTouchesNothing(w: World, plan: Plan, t: Target, spot: Spot, steps: seq<Step>, n: nat)
    requires n <= |steps| && Run(w, plan, t, spot, steps[..n]).stuck
    ensures var s, before := Run(w, plan, t, spot, steps), Run(w, plan, t, spot, steps[..n]);
      && s.stuck && s.cleaned == before.cleaned && |s.log| >= |before.log| && s.log[..|before.log|] == before.log
      && forall k :: |before.log| <= k < |s.log| ==> s.log[k].AskEffective?
  {
    hide Perform;
    if n == |steps| {
      assert steps[..n] == steps;
    } else {
      var m := |steps| - 1;
      assert steps[..m][..n] == steps[..n];
      StuckTouchesNothing(w, plan, t, spot, steps[..m], n);
    }
  }

  function Applies(log: seq<Call>): (n: nat)
  {
    if log == [] then 0 else Applies(log[..|log| - 1]) + if log[|log| - 1] == DoApply then 1 else 0
  }

  lemma {:induction false} ApplyOneMore(log: seq<Call>, c: Call)
    ensures Applies(log + [c]) == Applies(log) + if c == DoApply then 1 else 0
  {
    assert (log + [c])[..|log|] == log;
  }

  ghost predicate Touched(log: seq<Call>)
  {
    exists k :: 0 <= k < |log| && Touches(log[k])
  }

  lemma TouchOneMore(log: seq<Call>, c: Call)
    ensures Touched(log + [c]) <==> Touched(log) || Touches(c)
  {
    var more := log + [c];
    assert more[|log|] == c;
    forall k | 0 <= k < |log| ensures more[k] == log[k] { }
  }

  /** Which calls an action adds: an apply only for an apply, a touch only for an action that is not a check. */
  lemma {:induction false} PerformTouches(w: World, plan: Plan, t: Target, spot: Spot, log: seq<Call>, cleaned: Cleaned, a: Action)
    ensures var r := Perform(w, plan, t, spot, log, cleaned, a);
      && Applies(r.1) == Applies(log) + (if a.Apply? then 1 else 0)
      && (a == Revalidate || a == Source(RevalidateSource) ==> Touched(r.1) == Touched(log))
  {
    hide Applies, Touched;
    var asked := log + [AskSupports];
    forall c ensures Applies(log + [c]) == Applies(log) + if c == DoApply then 1 else 0 { ApplyOneMore(log, c); }
    forall c ensures Applies(asked + [c]) == Applies(asked) + if c == DoApply then 1 else 0 { ApplyOneMore(asked, c); }
    forall c ensures Touched(log + [c]) <==> Touched(log) || Touches(c) { TouchOneMore(log, c); }
    forall c ensures Touched(asked + [c]) <==> Touched(asked) || Touches(c) { TouchOneMore(asked, c); }
    match a
    case Revalidate => RevalidationTouches(w, t, spot, log);
    case Source(action) =>
      var planned := asked + [AskPlan];
      ApplyOneMore(planned, DoSource(action));
      TouchOneMore(planned, DoSource(action));
    case _ =>
  }

  lemma {:induction false} RevalidationTouches(w: World, t: Target, spot: Spot, log: seq<Call>)
    ensures var r := Revalidation(w, t, spot, log).1; Applies(r) == Applies(log) && Touched(r) == Touched(log)
  {
    hide Applies, Touched;
    var asked := log + [AskSupports];
    var held := if w.supports(log) && t.operation.kind != OfficialUninstall then asked + [AskTarget] else asked;
    var seen := held + [AskOccupancy];
    ApplyOneMore(log, AskSupports);
    TouchOneMore(log, AskSupports);
    ApplyOneMore(asked, AskTarget);
    TouchOneMore(asked, AskTarget);
    ApplyOneMore(held, AskOccupancy);
    TouchOneMore(held, AskOccupancy);
    ApplyOneMore(seen, AskPlan);
    TouchOneMore(seen, AskPlan);
    ApplyOneMore(seen + [AskPlan], DoPrepare);
    TouchOneMore(seen + [AskPlan], DoPrepare);
  }

  /** How many of the first n actions are applies. */
  function ApplySteps(steps: seq<Step>): (n: nat)
  {
    if steps == [] then 0 else ApplySteps(steps[..|steps| - 1]) + if steps[|steps| - 1].action.Apply? then 1 else 0
  }

  predicate IsCheck(a: Action) { a == Revalidate || a == Source(RevalidateSource) }

  /** A run applies no more often than its steps say, and touches nothing before its first check succeeds. */
  lemma {:induction false} RunApplies(w: World, plan: Plan, t: Target, spot: Spot, steps: seq<Step>)
    requires steps != [] ==> IsCheck(steps[0].action)
    ensures var s := Run(w, plan, t, spot, steps);
      && |s.results| == |steps| && Applies(s.log) <= ApplySteps(steps)
      && (!s.stuck ==> Applies(s.log) == ApplySteps(steps))
      && (Touched(s.log) ==> s.results[0].status == Succeeded && IsCheck(s.results[0].step.action))
  {
    hide Perform, Applies, Touched;
    RunStops(w, plan, t, spot, steps);
    if steps == [] {
      EmptyLog([]);
    } else {
      var n := |steps| - 1;
      var before := Run(w, plan, t, spot, steps[..n]);
      RunApplies(w, plan, t, spot, steps[..n]);
      RunStops(w, plan, t, spot, steps[..n]);
      AdvanceApplies(w, plan, t, spot, before, steps[n]);
      var s := Run(w, plan, t, spot, steps);
      assert n > 0 ==> s.results[0] == before.results[0];
      assert n > 0 && !before.stuck ==> before.results[0].status == Succeeded && IsCheck(before.results[0].step.action) by {
        if n > 0 && !before.stuck { FirstKind(w, plan, t, spot, steps[..n]); }
      }
      assert n == 0 ==> before == START;
      EmptyLog([]);
    }
  }

  lemma {:induction false} EmptyLog(log: seq<Call>)
    requires log == []
    ensures Applies(log) == 0 && !Touched(log)
  {
  }

  lemma AdvanceApplies(w: World, plan: Plan, t: Target, spot: Spot, s: State, step: Step)
    ensures var r := Advance(w, plan, t, spot, s, step);
      && Applies(s.log) <= Applies(r.log) <= Applies(s.log) + (if step.action.Apply? then 1 else 0)
      && (!r.stuck ==> !s.stuck && Applies(r.log) == Applies(s.log) + (if step.action.Apply? then 1 else 0))
      && (s.stuck || IsCheck(step.action) ==> Touched(r.log) == Touched(s.log))
  {
    hide Perform, Applies, Touched;
    var action := Effective(w, t, s.log, step.action);
    var log := s.log + [AskEffective(step.action)];
    ApplyOneMore(s.log, AskEffective(step.action));
    TouchOneMore(s.log, AskEffective(step.action));
    ApplyOneMore(log, AskCancelled);
    TouchOneMore(log, AskCancelled);
    PerformTouches(w, plan, t, spot, log + [AskCancelled], s.cleaned, action);
  }

  lemma {:induction false} FirstKind(w: World, plan: Plan, t: Target, spot: Spot, steps: seq<Step>)
    requires steps != []
    ensures var s := Run(w, plan, t, spot, steps); s.results != [] && SameKind(steps[0].action, s.results[0].step.action)
  {
    hide Perform;
    var n := |steps| - 1;
    RunStops(w, plan, t, spot, steps[..n]);
    if n > 0 { FirstKind(w, plan, t, spot, steps[..n]); }
  }

  /** A target is cleaned at most once, and nothing touches it unless its revalidation succeeded first. */
  lemma {:induction false} AppliedAtMostOnce(w: World, plan: Plan, index: nat, spot: Spot)
    requires index < |plan.targets|
    ensures var s := Run(w, plan, plan.targets[index], spot, Mine(StepsUpTo(plan, |plan.targets|), index));
      && s.results != [] && Applies(s.log) <= 1
      && (Touched(s.log) ==> s.results[0].status == Succeeded && IsCheck(s.results[0].step.action))
  {
    hide Run, Applies, Touched, StepsUpTo;
    var steps := Mine(StepsUpTo(plan, |plan.targets|), index);
    TargetSteps(plan, |plan.targets|, index);
    RunApplies(w, plan, plan.targets[index], spot, steps);
    OneApply(plan, plan.targets[index], steps);
  }

  lemma {:induction false} OneApply(plan: Plan, t: Target, steps: seq<Step>)
    requires |steps| == |ActionsFor(plan, t)| && forall k :: 0 <= k < |steps| ==> steps[k].action == ActionsFor(plan, t)[k]
    ensures ApplySteps(steps) <= 1 && (t.operation.kind != OfficialUninstall || !plan.app ==> ApplySteps(steps) == 1)
  {
    AppliesAfter(steps, if t.operation.kind == OfficialUninstall && plan.app then 0 else 2);
    var two := steps[..2];
    assert two[..1] == [two[0]] && [two[0]][..0] == [];
    assert ApplySteps(two) == (if two[0].action.Apply? then 1 else 0) + (if two[1].action.Apply? then 1 else 0) by {
      assert ApplySteps([two[0]]) == if two[0].action.Apply? then 1 else 0;
    }
  }

  lemma {:induction false} AppliesAfter(steps: seq<Step>, n: nat)
    requires n <= |steps| && forall k :: n <= k < |steps| ==> !steps[k].action.Apply?
    ensures ApplySteps(steps) == ApplySteps(steps[..n])
  {
    if n == |steps| {
      assert steps[..n] == steps;
    } else {
      var m := |steps| - 1;
      AppliesAfter(steps[..m], n);
      assert steps[..m][..n] == steps[..n];
    }
  }

  // ---------------------------------------------------------------- what comes before a touch

  /** A call the log made and how it was answered there. */
  ghost predicate Answered(log: seq<Call>, c: Call, yes: seq<Call> -> bool)
  {
    exists k :: 0 <= k < |log| && log[k] == c && yes(log[..k])
  }

  /** Whether a cleanup may begin: the executor supports it, the target still holds, nobody uses it, the plan holds, and it is prepared. */
  ghost predicate CleanupChecked(w: World, t: Target, spot: Spot, log: seq<Call>)
  {
    && Answered(log, AskSupports, w.supports)
    && (t.operation.kind != OfficialUninstall ==> Answered(log, AskTarget, w.targetHolds))
    && Answered(log, AskOccupancy, before => w.requiresOccupancy(before) ==> spot == Clear)
    && Answered(log, AskPlan, w.planHolds) && Answered(log, DoPrepare, w.prepares)
  }

  /** Whether an official uninstall may begin. */
  ghost predicate SourceChecked(w: World, plan: Plan, log: seq<Call>)
  {
    plan.installed && Answered(log, AskSupports, w.supports) && Answered(log, AskPlan, w.planHolds)
  }

  ghost predicate Checked(w: World, plan: Plan, t: Target, spot: Spot, first: Action, log: seq<Call>)
  {
    if first == Revalidate then CleanupChecked(w, t, spot, log) else SourceChecked(w, plan, log)
  }

  lemma AnsweredHere(log: seq<Call>, c: Call, yes: seq<Call> -> bool)
    requires yes(log)
    ensures Answered(log + [c], c, yes)
  {
    assert (log + [c])[|log|] == c && (log + [c])[..|log|] == log;
  }

  lemma AnsweredLater(log: seq<Call>, more: seq<Call>, c: Call, yes: seq<Call> -> bool)
    requires log <= more && Answered(log, c, yes)
    ensures Answered(more, c, yes)
  {
    var k :| 0 <= k < |log| && log[k] == c && yes(log[..k]);
    assert more[k] == log[k] && more[..k] == log[..k];
  }

  lemma CheckedLater(w: World, plan: Plan, t: Target, spot: Spot, first: Action, log: seq<Call>, more: seq<Call>)
    requires log <= more && Checked(w, plan, t, spot, first, log)
    ensures Checked(w, plan, t, spot, first, more)
  {
    hide Answered;
    AnsweredLater(log, more, AskSupports, w.supports);
    AnsweredLater(log, more, AskPlan, w.planHolds);
    if first == Revalidate {
      if t.operation.kind != OfficialUninstall { AnsweredLater(log, more, AskTarget, w.targetHolds); }
      AnsweredLater(log, more, AskOccupancy, before => w.requiresOccupancy(before) ==> spot == Clear);
      AnsweredLater(log, more, DoPrepare, w.prepares);
    }
  }

  lemma {:induction false} RevalidationChecks(w: World, t: Target, spot: Spot, log: seq<Call>)
    requires Revalidation(w, t, spot, log).0 == Succeeded
    ensures CleanupChecked(w, t, spot, Revalidation(w, t, spot, log).1)
  {
    hide Answered;
    var free := (before: seq<Call>) => w.requiresOccupancy(before) ==> spot == Clear;
    var asked := log + [AskSupports];
    var held := if t.operation.kind != OfficialUninstall then asked + [AskTarget] else asked;
    var seen := held + [AskOccupancy];
    var planned := seen + [AskPlan];
    var done := planned + [DoPrepare];
    assert Revalidation(w, t, spot, log).1 == done;
    AnsweredHere(log, AskSupports, w.supports);
    AnsweredLater(asked, done, AskSupports, w.supports);
    if t.operation.kind != OfficialUninstall {
      AnsweredHere(asked, AskTarget, w.targetHolds);
      AnsweredLater(held, done, AskTarget, w.targetHolds);
    }
    AnsweredHere(held, AskOccupancy, free);
    AnsweredLater(seen, done, AskOccupancy, free);
    AnsweredHere(seen, AskPlan, w.planHolds);
    AnsweredLater(planned, done, AskPlan, w.planHolds);
    AnsweredHere(planned, DoPrepare, w.prepares);
  }

  lemma {:induction false} SourceChecks(w: World, plan: Plan, log: seq<Call>)
    requires SourceStep(w, plan, log, RevalidateSource).0 == Succeeded
    ensures SourceChecked(w, plan, SourceStep(w, plan, log, RevalidateSource).1)
  {
    hide Answered;
    var asked := log + [AskSupports];
    var planned := asked + [AskPlan];
    var done := planned + [DoSource(RevalidateSource)];
    AnsweredHere(log, AskSupports, w.supports);
    AnsweredLater(asked, done, AskSupports, w.supports);
    AnsweredHere(asked, AskPlan, w.planHolds);
    AnsweredLater(planned, done, AskPlan, w.planHolds);
  }

  lemma LogGrows(w: World, plan: Plan, t: Target, spot: Spot, s: State, step: Step)
    ensures s.log <= Advance(w, plan, t, spot, s, step).log
  {
  }

  /** A first check that succeeds leaves the answers in the log. */
  lemma {:induction false} FirstChecks(w: World, plan: Plan, t: Target, spot: Spot, step: Step)
    requires IsCheck(step.action) && !Advance(w, plan, t, spot, START, step).stuck
    ensures Checked(w, plan, t, spot, step.action, Advance(w, plan, t, spot, START, step).log)
  {
    hide CleanupChecked, SourceChecked, Revalidation, SourceStep;
    var log := START.log + [AskEffective(step.action)] + [AskCancelled];
    if step.action == Revalidate {
      RevalidationChecks(w, t, spot, log);
    } else {
      SourceChecks(w, plan, log);
    }
  }

  lemma {:induction false} RunIsChecked(w: World, plan: Plan, t: Target, spot: Spot, steps: seq<Step>)
    requires steps != [] && IsCheck(steps[0].action)
    ensures var s := Run(w, plan, t, spot, steps); var first := steps[0].action;
      && (!s.stuck ==> Checked(w, plan, t, spot, first, s.log))
      && forall m :: 0 <= m < |s.log| && Touches(s.log[m]) ==> Checked(w, plan, t, spot, first, s.log[..m])
  {
    hide Perform, Applies, Touched, Checked;
    var n := |steps| - 1;
    var before, s := Run(w, plan, t, spot, steps[..n]), Run(w, plan, t, spot, steps);
    var first := steps[0].action;
    RunStops(w, plan, t, spot, steps[..n]);
    AdvanceApplies(w, plan, t, spot, before, steps[n]);
    LogGrows(w, plan, t, spot, before, steps[n]);
    if n == 0 {
      assert before == START;
      if !s.stuck { FirstChecks(w, plan, t, spot, steps[0]); }
      EmptyLog([]);
      UntouchedHas(s.log);
    } else {
      RunIsChecked(w, plan, t, spot, steps[..n]);
      if !before.stuck { CheckedLater(w, plan, t, spot, first, before.log, s.log); }
      StuckIsQuiet(w, plan, t, spot, before, steps[n]);
      forall m | 0 <= m < |s.log| && Touches(s.log[m]) ensures Checked(w, plan, t, spot, first, s.log[..m]) {
        if m < |before.log| {
          assert s.log[m] == before.log[m] && s.log[..m] == before.log[..m];
        } else {
          CheckedLater(w, plan, t, spot, first, before.log, s.log[..m]);
        }
      }
    }
  }

  lemma UntouchedHas(log: seq<Call>)
    requires !Touched(log)
    ensures forall m :: 0 <= m < |log| ==> !Touches(log[m])
  {
  }

  lemma StuckIsQuiet(w: World, plan: Plan, t: Target, spot: Spot, s: State, step: Step)
    ensures s.stuck ==> forall m :: |s.log| <= m < |Advance(w, plan, t, spot, s, step).log| ==> !Touches(Advance(w, plan, t, spot, s, step).log[m])
  {
  }

  /** Nothing touches a target before every check it needs was made and answered yes. */
  lemma {:induction false} TouchedOnlyWhenChecked(w: World, plan: Plan, index: nat, spot: Spot, m: nat)
    requires index < |plan.targets|
    requires var s := Run(w, plan, plan.targets[index], spot, Mine(StepsUpTo(plan, |plan.targets|), index)); m < |s.log| && Touches(s.log[m])
    ensures var t := plan.targets[index];
      var log := Run(w, plan, t, spot, Mine(StepsUpTo(plan, |plan.targets|), index)).log;
      if t.operation.kind == OfficialUninstall && plan.app then SourceChecked(w, plan, log[..m]) else CleanupChecked(w, t, spot, log[..m])
  {
    hide Run, StepsUpTo, Mine, CleanupChecked, SourceChecked;
    var t, steps := plan.targets[index], Mine(StepsUpTo(plan, |plan.targets|), index);
    TargetSteps(plan, |plan.targets|, index);
    RunIsChecked(w, plan, t, spot, steps);
  }

  // ---------------------------------------------------------------- the touches themselves

  /** The touching calls of a log, in order. */
  function TouchCalls(log: seq<Call>): (r: seq<Call>)
  {
    if log == [] then []
    else TouchCalls(log[..|log| - 1]) + if Touches(log[|log| - 1]) then [log[|log| - 1]] else []
  }

  lemma {:induction false} TouchCallsNext(log: seq<Call>, c: Call)
    ensures TouchCalls(log + [c]) == TouchCalls(log) + if Touches(c) then [c] else []
  {
    assert (log + [c])[..|log|] == log;
  }

  /** The one touching call an action makes, if it makes any. */
  function TouchOf(a: Action): (r: seq<Call>)
  {
    match a
    case Apply(_) => [DoApply]
    case Unregister(registration) => [DoUnregister(registration)]
    case Source(source) => if source == RevalidateSource then [] else [DoSource(source)]
    case _ => []
  }

  function TouchesOf(steps: seq<Step>): (r: seq<Call>)
  {
    if steps == [] then [] else TouchesOf(steps[..|steps| - 1]) + TouchOf(steps[|steps| - 1].action)
  }

  lemma {:induction false} PerformTouchCalls(w: World, plan: Plan, t: Target, spot: Spot, log: seq<Call>, cleaned: Cleaned, a: Action)
    ensures TouchCalls(Perform(w, plan, t, spot, log, cleaned, a).1) == TouchCalls(log) + TouchOf(a)
  {
    hide TouchCalls;
    var asked := log + [AskSupports];
    forall c ensures TouchCalls(log + [c]) == TouchCalls(log) + if Touches(c) then [c] else [] { TouchCallsNext(log, c); }
    forall c ensures TouchCalls(asked + [c]) == TouchCalls(asked) + if Touches(c) then [c] else [] { TouchCallsNext(asked, c); }
    match a
    case Revalidate => RevalidationTouchCalls(w, t, spot, log);
    case Source(source) => TouchCallsNext(asked + [AskPlan], DoSource(source));
    case _ =>
  }

  lemma {:induction false} RevalidationTouchCalls(w: World, t: Target, spot: Spot, log: seq<Call>)
    ensures TouchCalls(Revalidation(w, t, spot, log).1) == TouchCalls(log)
  {
    hide TouchCalls;
    var asked := log + [AskSupports];
    var held := if w.supports(log) && t.operation.kind != OfficialUninstall then asked + [AskTarget] else asked;
    var seen := held + [AskOccupancy];
    TouchCallsNext(log, AskSupports);
    TouchCallsNext(asked, AskTarget);
    TouchCallsNext(held, AskOccupancy);
    TouchCallsNext(seen, AskPlan);
    TouchCallsNext(seen + [AskPlan], DoPrepare);
  }

  /** A run makes the touches of its steps in order, all of them unless it gets stuck. */
  lemma {:induction false} RunTouches(w: World, plan: Plan, t: Target, spot: Spot, steps: seq<Step>)
    ensures var s := Run(w, plan, t, spot, steps);
      TouchCalls(s.log) <= TouchesOf(steps) && (!s.stuck ==> TouchCalls(s.log) == TouchesOf(steps))
  {
    hide Perform, TouchCalls, Touches;
    if steps == [] {
      NoTouchCalls([]);
    } else {
      var n := |steps| - 1;
      RunTouches(w, plan, t, spot, steps[..n]);
      var before := Run(w, plan, t, spot, steps[..n]);
      var action := Effective(w, t, before.log, steps[n].action);
      assert TouchOf(action) == TouchOf(steps[n].action);
      var log := before.log + [AskEffective(steps[n].action)];
      TouchCallsNext(before.log, AskEffective(steps[n].action));
      TouchCallsNext(log, AskCancelled);
      AsksAreQuiet(steps[n].action);
      PerformTouchCalls(w, plan, t, spot, log + [AskCancelled], before.cleaned, action);
    }
  }

  lemma AsksAreQuiet(a: Action)
    ensures !Touches(AskEffective(a)) && !Touches(AskCancelled)
  {
  }

  lemma {:induction false} NoTouchCalls(log: seq<Call>)
    requires log == []
    ensures TouchCalls(log) == []
  {
  }

  /** What cleaning a target may do to it, in order. */
  function PlannedTouches(plan: Plan, t: Target): (r: seq<Call>)
  {
    if t.operation.kind == OfficialUninstall && plan.app then
      [DoSource(OfficialOperation), DoSource(SupplementCleanup), DoSource(VerifyCompletion), DoSource(RemoveRecords)]
    else if t.operation.kind == GitWorktree then [DoApply, DoUnregister(t.operation.registration)]
    else [DoApply]
  }

  /** A run touches its target as planned, in that order, stopping anywhere; a run that succeeds does all of it. */
  lemma {:induction false} TouchedAsPlanned(w: World, plan: Plan, index: nat, spot: Spot)
    requires index < |plan.targets|
    ensures var t := plan.targets[index];
      var s := Run(w, plan, t, spot, Mine(StepsUpTo(plan, |plan.targets|), index));
      TouchCalls(s.log) <= PlannedTouches(plan, t) && (AllSucceeded(s.results) ==> TouchCalls(s.log) == PlannedTouches(plan, t))
  {
    hide Run, StepsUpTo, Mine, TouchCalls, Perform;
    var t, steps := plan.targets[index], Mine(StepsUpTo(plan, |plan.targets|), index);
    TargetSteps(plan, |plan.targets|, index);
    RunStops(w, plan, t, spot, steps);
    RunTouches(w, plan, t, spot, steps);
    StepsTouch(plan, t, steps, |steps|);
    assert steps[..|steps|] == steps;
  }

  lemma {:induction false} StepsTouch(plan: Plan, t: Target, steps: seq<Step>, n: nat)
    requires |steps| == |ActionsFor(plan, t)| && n == |steps| && forall k :: 0 <= k < |steps| ==> steps[k].action == ActionsFor(plan, t)[k]
    ensures TouchesOf(steps[..n]) == PlannedTouches(plan, t)
  {
    hide TouchesOf;
    TouchesNone(steps);
    TouchesNext(steps, 0);
    TouchesNext(steps, 1);
    if n > 2 { TouchesNext(steps, 2); }
    if n > 3 { TouchesNext(steps, 3); }
    if n > 4 { TouchesNext(steps, 4); }
  }

  lemma TouchesNone(steps: seq<Step>)
    ensures TouchesOf(steps[..0]) == []
  {
  }

  lemma TouchesNext(steps: seq<Step>, n: nat)
    requires n < |steps|
    ensures TouchesOf(steps[..n + 1]) == TouchesOf(steps[..n]) + TouchOf(steps[n].action)
  {
    assert steps[..n + 1][..n] == steps[..n];
  }

  // ---------------------------------------------------------------- what a status says

  /** The status says how the last call of the log, made for this action, was answered. */
  ghost predicate Says(w: World, spot: Spot, a: Action, status: Status, log: seq<Call>, cleaned: Cleaned)
  {
    && log != []
    && var last, asked := log[|log| - 1], log[..|log| - 1];
       match a
       case Apply(_) =>
         && last == DoApply && cleaned == w.cleans(asked)
         && (status == Failed <==> cleaned.failed != []) && (status == Succeeded <==> Clean(cleaned)) && status in {Succeeded, Failed, Blocked}
       case Verify(Some(c)) =>
         && last == AskCompletion(c)
         && (status == Succeeded <==> w.completion(asked, c) == Confirmed) && (status == Failed <==> w.completion(asked, c) == Absent) && status in {Succeeded, Failed, Unknown}
       case Verify(None) => status == Unknown
       case Unregister(g) => last == DoUnregister(g) && (status == Succeeded <==> w.unregisters(asked, g)) && status in {Succeeded, Failed}
       case Source(source) =>
         && (status == Succeeded <==> last == DoSource(source) && w.runs(asked, source))
         && (status == Failed <==> last == DoSource(source) && !w.runs(asked, source)) && status in {Succeeded, Failed, Blocked}
       case Revalidate =>
         && (status == Succeeded <==> last == DoPrepare && w.prepares(asked))
         && (status == Unknown <==> last == AskOccupancy && w.requiresOccupancy(asked) && spot == Unsure) && status in {Succeeded, Blocked, Unknown}
  }

  lemma {:induction false} PerformSays(w: World, plan: Plan, t: Target, spot: Spot, log: seq<Call>, cleaned: Cleaned, a: Action)
    requires log != []
    ensures var r := Perform(w, plan, t, spot, log, cleaned, a); r.0 != Cancelled && Says(w, spot, a, r.0, r.1, r.2)
  {
    hide Revalidation, SourceStep;
    match a
    case Revalidate => RevalidationEnds(w, t, spot, log);
    case Source(source) => SourceEnds(w, plan, log, source);
    case Apply(_) => LastOf(log, DoApply);
    case Unregister(g) => LastOf(log, DoUnregister(g));
    case Verify(Some(c)) => LastOf(log, AskCompletion(c));
    case Verify(None) =>
  }

  lemma LastOf(log: seq<Call>, c: Call)
    ensures var r := log + [c]; r[|r| - 1] == c && r[..|r| - 1] == log
  {
  }

  /** The last call asked whether to go on, and the answer was no. */
  ghost predicate CalledOff(w: World, log: seq<Call>)
  {
    log != [] && log[|log| - 1] == AskCancelled && w.cancelled(log[..|log| - 1])
  }

  /** The status of a step that was reached says how its last call was answered. */
  lemma {:induction false} StatusIsAnswer(w: World, plan: Plan, t: Target, spot: Spot, steps: seq<Step>)
    requires steps != [] && !Run(w, plan, t, spot, steps[..|steps| - 1]).stuck
    ensures var s := Run(w, plan, t, spot, steps);
      s.results != [] && var r := s.results[|s.results| - 1]; if r.status == Cancelled then CalledOff(w, s.log) else Says(w, spot, r.step.action, r.status, s.log, s.cleaned)
  {
    hide Perform, Says;
    var before := Run(w, plan, t, spot, steps[..|steps| - 1]);
    var log := before.log + [AskEffective(steps[|steps| - 1].action)] + [AskCancelled];
    PerformSays(w, plan, t, spot, log, before.cleaned, Effective(w, t, before.log, steps[|steps| - 1].action));
    LastOf(before.log + [AskEffective(steps[|steps| - 1].action)], AskCancelled);
  }

  lemma SourceEnds(w: World, plan: Plan, log: seq<Call>, a: SourceAction)
    ensures var r := SourceStep(w, plan, log, a); r.1 != [] && Says(w, Clear, Source(a), r.0, r.1, NOTHING)
  {
    var r := SourceStep(w, plan, log, a);
    if r.1[|r.1| - 1] == DoSource(a) { assert r.1 == r.1[..|r.1| - 1] + [DoSource(a)]; }
  }

  lemma RevalidationEnds(w: World, t: Target, spot: Spot, log: seq<Call>)
    ensures var r := Revalidation(w, t, spot, log); r.1 != [] && Says(w, spot, Revalidate, r.0, r.1, NOTHING)
  {
    var r := Revalidation(w, t, spot, log);
    if r.1[|r.1| - 1] == DoPrepare { assert r.1 == r.1[..|r.1| - 1] + [DoPrepare]; }
    if r.1[|r.1| - 1] == AskOccupancy { assert r.1 == r.1[..|r.1| - 1] + [AskOccupancy]; }
  }

  /** The answer to this call stands in the way. */
  ghost predicate AnsweredNo(w: World, spot: Spot, c: Call, before: seq<Call>)
  {
    match c
    case AskEffective(_) => false
    case AskCancelled => w.cancelled(before)
    case AskSupports => !w.supports(before)
    case AskTarget => !w.targetHolds(before)
    case AskOccupancy => w.requiresOccupancy(before) && spot != Clear
    case AskPlan => !w.planHolds(before)
    case DoPrepare => !w.prepares(before)
    case DoApply => !Clean(w.cleans(before))
    case AskCompletion(condition) => w.completion(before, condition) != Confirmed
    case DoUnregister(registration) => !w.unregisters(before, registration)
    case DoSource(source) => !w.runs(before, source)
  }

  /** Some call of the log from this position on was answered no. */
  ghost predicate HeardNo(w: World, spot: Spot, log: seq<Call>, from: nat)
  {
    exists k :: from <= k < |log| && AnsweredNo(w, spot, log[k], log[..k])
  }

  lemma NoAt(w: World, spot: Spot, log: seq<Call>, c: Call, more: seq<Call>, from: nat)
    requires AnsweredNo(w, spot, c, log) && log + [c] <= more && from <= |log|
    ensures HeardNo(w, spot, more, from)
  {
    var k := |log|;
    assert more[k] == c && more[..k] == log;
  }

  lemma {:induction false} RevalidationStops(w: World, t: Target, spot: Spot, log: seq<Call>, from: nat)
    requires Revalidation(w, t, spot, log).0 != Succeeded && from <= |log|
    ensures HeardNo(w, spot, Revalidation(w, t, spot, log).1, from)
  {
    hide HeardNo;
    var r := Revalidation(w, t, spot, log).1;
    var asked := log + [AskSupports];
    var held := if w.supports(log) && t.operation.kind != OfficialUninstall then asked + [AskTarget] else asked;
    var seen := held + [AskOccupancy];
    if w.requiresOccupancy(held) && spot != Clear {
      NoAt(w, spot, held, AskOccupancy, r, from);
    } else if !w.supports(log) {
      NoAt(w, spot, log, AskSupports, r, from);
    } else if t.operation.kind != OfficialUninstall && !w.targetHolds(asked) {
      NoAt(w, spot, asked, AskTarget, r, from);
    } else if !w.planHolds(seen) {
      NoAt(w, spot, seen, AskPlan, r, from);
    } else {
      NoAt(w, spot, seen + [AskPlan], DoPrepare, r, from);
    }
  }

  lemma {:induction false} SourceStops(w: World, plan: Plan, spot: Spot, log: seq<Call>, a: SourceAction, from: nat)
    requires SourceStep(w, plan, log, a).0 != Succeeded && from <= |log| && (a == RevalidateSource ==> plan.installed)
    ensures HeardNo(w, spot, SourceStep(w, plan, log, a).1, from)
  {
    hide HeardNo;
    var r := SourceStep(w, plan, log, a).1;
    if a != RevalidateSource {
      NoAt(w, spot, log, DoSource(a), r, from);
    } else if !w.supports(log) {
      NoAt(w, spot, log, AskSupports, r, from);
    } else if !w.planHolds(log + [AskSupports]) {
      NoAt(w, spot, log + [AskSupports], AskPlan, r, from);
    } else {
      NoAt(w, spot, log + [AskSupports] + [AskPlan], DoSource(a), r, from);
    }
  }

  /** A step fails for a reason: a call it made was answered no, its condition is missing, or no installation was captured. */
  lemma {:induction false} StoppedForAReason(w: World, plan: Plan, t: Target, spot: Spot, steps: seq<Step>)
    requires steps != [] && !Run(w, plan, t, spot, steps[..|steps| - 1]).stuck && Run(w, plan, t, spot, steps).stuck
    ensures var s, before := Run(w, plan, t, spot, steps), Run(w, plan, t, spot, steps[..|steps| - 1]);
      && s.results != []
      && var a := s.results[|s.results| - 1].step.action;
      a == Verify(None) || (a == Source(RevalidateSource) && !plan.installed) || HeardNo(w, spot, s.log, |before.log|)
  {
    hide HeardNo, Revalidation, SourceStep;
    var before, s, step := Run(w, plan, t, spot, steps[..|steps| - 1]), Run(w, plan, t, spot, steps), steps[|steps| - 1];
    var log := before.log + [AskEffective(step.action)];
    if w.cancelled(log) {
      NoAt(w, spot, log, AskCancelled, s.log, |before.log|);
    } else {
      var asked := log + [AskCancelled];
      match Effective(w, t, before.log, step.action)
      case Revalidate => RevalidationStops(w, t, spot, asked, |before.log|);
      case Source(a) => if a == RevalidateSource ==> plan.installed { SourceStops(w, plan, spot, asked, a, |before.log|); }
      case Apply(_) => NoAt(w, spot, asked, DoApply, s.log, |before.log|);
      case Unregister(g) => NoAt(w, spot, asked, DoUnregister(g), s.log, |before.log|);
      case Verify(Some(c)) => NoAt(w, spot, asked, AskCompletion(c), s.log, |before.log|);
      case Verify(None) =>
    }
  }

  /** So a plan nothing objects to is carried out to the end. */
  lemma {:induction false} NothingStopsIt(w: World, plan: Plan, index: nat, spot: Spot)
    requires index < |plan.targets| && plan.installed && forall c, before :: !AnsweredNo(w, spot, c, before)
    ensures AllSucceeded(Run(w, plan, plan.targets[index], spot, Mine(StepsUpTo(plan, |plan.targets|), index)).results)
  {
    hide Run, StepsUpTo, Mine;
    var t, steps := plan.targets[index], Mine(StepsUpTo(plan, |plan.targets|), index);
    TargetSteps(plan, |plan.targets|, index);
    RunStops(w, plan, t, spot, steps);
    NeverStuck(w, plan, t, spot, steps);
  }

  lemma {:induction false} NeverStuck(w: World, plan: Plan, t: Target, spot: Spot, steps: seq<Step>)
    requires plan.installed && (forall c, before :: !AnsweredNo(w, spot, c, before)) && forall k :: 0 <= k < |steps| ==> steps[k].action != Verify(None)
    ensures !Run(w, plan, t, spot, steps).stuck
  {
    hide Advance, AnsweredNo;
    if steps != [] {
      NeverStuck(w, plan, t, spot, steps[..|steps| - 1]);
      if Run(w, plan, t, spot, steps).stuck {
        StoppedForAReason(w, plan, t, spot, steps);
        LastIsEffective(w, plan, t, spot, steps);
      }
    }
  }

  lemma {:induction false} LastIsEffective(w: World, plan: Plan, t: Target, spot: Spot, steps: seq<Step>)
    requires steps != []
    ensures var s := Run(w, plan, t, spot, steps); s.results != [] && (steps[|steps| - 1].action != Verify(None) ==> s.results[|s.results| - 1].step.action != Verify(None))
  {
    hide Perform;
  }

  lemma {:induction false} RunLogGrows(w: World, plan: Plan, t: Target, spot: Spot, steps: seq<Step>, n: nat)
    requires n <= |steps|
    ensures Run(w, plan, t, spot, steps[..n]).log <= Run(w, plan, t, spot, steps).log
  {
    hide Advance;
    if n == |steps| {
      assert steps[..n] == steps;
    } else {
      var m := |steps| - 1;
      assert steps[..m][..n] == steps[..n];
      RunLogGrows(w, plan, t, spot, steps[..m], n);
      LogGrows(w, plan, t, spot, Run(w, plan, t, spot, steps[..m]), steps[m]);
    }
  }

  lemma {:induction false} TouchInCalls(log: seq<Call>, m: nat)
    requires m < |log| && Touches(log[m])
    ensures log[m] in TouchCalls(log)
  {
    hide Touches;
    if m < |log| - 1 { TouchInCalls(log[..|log| - 1], m); }
  }

  /** The machine was asked whether to go on since the last touch, and it was. */
  ghost predicate ToldToGoOn(w: World, log: seq<Call>, m: nat)
    requires m <= |log|
  {
    exists k :: 0 <= k < m && log[k] == AskCancelled && !w.cancelled(log[..k]) && forall j :: k < j < m ==> !Touches(log[j])
  }

  lemma {:induction false} OnlyLastTouches(w: World, plan: Plan, t: Target, spot: Spot, log: seq<Call>, cleaned: Cleaned, a: Action)
    ensures var r := Perform(w, plan, t, spot, log, cleaned, a).1; log <= r && forall j :: |log| <= j < |r| - 1 ==> !Touches(r[j])
  {
    hide Touches;
    AsksTouchNothing();
  }

  lemma AsksTouchNothing()
    ensures !Touches(AskSupports) && !Touches(AskTarget) && !Touches(AskOccupancy) && !Touches(AskPlan) && !Touches(DoPrepare) && !Touches(AskCancelled)
    ensures forall a :: !Touches(AskEffective(a))
  {
  }

  /** Nothing touches a target but in a step that was not called off. */
  lemma {:induction false} TouchedUnlessCancelled(w: World, plan: Plan, t: Target, spot: Spot, steps: seq<Step>, m: nat)
    requires var s := Run(w, plan, t, spot, steps); m < |s.log| && Touches(s.log[m])
    ensures ToldToGoOn(w, Run(w, plan, t, spot, steps).log, m)
  {
    hide Perform, Touches, ToldToGoOn;
    AsksTouchNothing();
    var n := |steps| - 1;
    var before, s := Run(w, plan, t, spot, steps[..n]), Run(w, plan, t, spot, steps);
    LogGrows(w, plan, t, spot, before, steps[n]);
    if m < |before.log| {
      TouchedUnlessCancelled(w, plan, t, spot, steps[..n], m);
      GoOnLater(w, before.log, s.log, m);
    } else {
      var log := before.log + [AskEffective(steps[n].action)];
      OnlyLastTouches(w, plan, t, spot, log + [AskCancelled], before.cleaned, Effective(w, t, before.log, steps[n].action));
      GoneOn(w, before.log, log, s.log, m);
    }
  }

  lemma GoOnLater(w: World, log: seq<Call>, more: seq<Call>, m: nat)
    requires log <= more && m < |log| && ToldToGoOn(w, log, m)
    ensures ToldToGoOn(w, more, m)
  {
    var k :| 0 <= k < m && log[k] == AskCancelled && !w.cancelled(log[..k]) && forall j :: k < j < m ==> !Touches(log[j]);
    assert more[k] == log[k] && more[..k] == log[..k];
    forall j | k < j < m ensures more[j] == log[j] { }
  }

  lemma GoneOn(w: World, before: seq<Call>, log: seq<Call>, more: seq<Call>, m: nat)
    requires before <= log && log + [AskCancelled] <= more && |log| < m < |more| && !w.cancelled(log)
    requires forall j :: |log| < j < |more| - 1 ==> !Touches(more[j])
    ensures ToldToGoOn(w, more, m)
  {
    var k := |log|;
    assert more[k] == AskCancelled && more[..k] == log;
  }

  /** A worktree's registration is removed only after its directory was confirmed to be gone, or empty after a fallback. */
  lemma {:induction false} UnregisteredWhenAbsent(w: World, plan: Plan, index: nat, spot: Spot, m: nat)
    requires index < |plan.targets|
    requires var s := Run(w, plan, plan.targets[index], spot, Mine(StepsUpTo(plan, |plan.targets|), index)); m < |s.log| && s.log[m].DoUnregister?
    ensures var t := plan.targets[index];
      var log := Run(w, plan, t, spot, Mine(StepsUpTo(plan, |plan.targets|), index)).log;
      && t.operation.kind == GitWorktree && log[m] == DoUnregister(t.operation.registration)
      && exists c :: c in {PathAbsent(t.path), ContentsEmpty(t.path)} && Answered(log[..m], AskCompletion(c), before => w.completion(before, c) == Confirmed)
  {
    hide StepsUpTo, Mine, TouchCalls, Perform, TouchesOf, Advance, Answered, Says;
    var t, steps := plan.targets[index], Mine(StepsUpTo(plan, |plan.targets|), index);
    var s := Run(w, plan, t, spot, steps);
    TargetSteps(plan, |plan.targets|, index);
    TouchedAsPlanned(w, plan, index, spot);
    TouchInCalls(s.log, m);
    var three := steps[..3];
    var r := Run(w, plan, t, spot, three);
    RunLogGrows(w, plan, t, spot, steps, 3);
    EarlyTouches(w, plan, t, spot, steps);
    if m < |r.log| { TouchInCalls(r.log, m); }
    if r.stuck { StuckTouchesNothing(w, plan, t, spot, steps, 3); }
    assert three[..2] == steps[..2];
    ThirdIsConfirmed(w, plan, t, spot, three);
    var c :| c in {PathAbsent(t.path), ContentsEmpty(t.path)} && Answered(r.log, AskCompletion(c), before => w.completion(before, c) == Confirmed);
    AnsweredLater(r.log, s.log[..m], AskCompletion(c), before => w.completion(before, c) == Confirmed);
  }

  lemma {:induction false} EarlyTouches(w: World, plan: Plan, t: Target, spot: Spot, steps: seq<Step>)
    requires |steps| == |ActionsFor(plan, t)| && t.operation.kind == GitWorktree && forall k :: 0 <= k < |steps| ==> steps[k].action == ActionsFor(plan, t)[k]
    ensures |steps| == 5 && TouchCalls(Run(w, plan, t, spot, steps[..3]).log) <= [DoApply]
  {
    hide Run, TouchCalls, TouchesOf;
    RunTouches(w, plan, t, spot, steps[..3]);
    TouchesNone(steps);
    TouchesNext(steps, 0);
    TouchesNext(steps, 1);
    TouchesNext(steps, 2);
  }

  lemma {:induction false} ThirdIsConfirmed(w: World, plan: Plan, t: Target, spot: Spot, steps: seq<Step>)
    requires |steps| == 3 && steps[2].action == Verify(Some(PathAbsent(t.path))) && !Run(w, plan, t, spot, steps).stuck
    ensures exists c :: c in {PathAbsent(t.path), ContentsEmpty(t.path)}
                        && Answered(Run(w, plan, t, spot, steps).log, AskCompletion(c), before => w.completion(before, c) == Confirmed)
  {
    hide Perform, Answered, Advance;
    var s := Run(w, plan, t, spot, steps);
    RunStops(w, plan, t, spot, steps);
    var before := Run(w, plan, t, spot, steps[..2]);
    UnstuckFrom(w, plan, t, spot, before, steps[2]);
    StatusIsAnswer(w, plan, t, spot, steps);
    var a := Effective(w, t, before.log, steps[2].action);
    var c := a.condition.value;
    assert s.log == s.log[..|s.log| - 1] + [AskCompletion(c)];
    AnsweredHere(s.log[..|s.log| - 1], AskCompletion(c), asked => w.completion(asked, c) == Confirmed);
  }

  lemma UnstuckFrom(w: World, plan: Plan, t: Target, spot: Spot, s: State, step: Step)
    ensures var r := Advance(w, plan, t, spot, s, step);
      && r.results != [] && r.results[|r.results| - 1].step.action == Effective(w, t, s.log, step.action)
      && (!r.stuck ==> !s.stuck && r.results[|r.results| - 1].status == Succeeded)
  {
    hide Perform;
  }

  /** Every step is reported as planned, but that after a fallback what is applied and asked for is the emptying of the directory. */
  lemma {:induction false} StepsAreReported(w: World, plan: Plan, t: Target, spot: Spot, steps: seq<Step>, i: nat)
    requires i < |steps|
    ensures var s, fell := Run(w, plan, t, spot, steps), w.fallback(Run(w, plan, t, spot, steps[..i]).log);
      && |s.results| == |steps|
      && var done := s.results[i].step;
      && done == steps[i].(action := done.action)
      && (fell && steps[i].action.Apply? ==> done.action == Apply(Operation(Contents, "", "", "")))
      && (fell && steps[i].action.Verify? ==> done.action == Verify(Some(ContentsEmpty(t.path))))
      && (!fell || !(steps[i].action.Apply? || steps[i].action.Verify?) ==> done.action == steps[i].action)
  {
    hide Perform;
    var m := |steps| - 1;
    if i < m {
      assert steps[..m][..i] == steps[..i];
      StepsAreReported(w, plan, t, spot, steps[..m], i);
    } else {
      RunStops(w, plan, t, spot, steps[..m]);
    }
  }

  // ---------------------------------------------------------------- the report

  datatype Report = Report(cleaned: Cleaned, executions: seq<seq<StepResult>>)

  /** A stuck run that left no entry of its own gets one: skipped when cancelled, else failed. */
  function Finished(w: World, t: Target, s: State): (r: Report)
  {
    if s.stuck && Clean(s.cleaned) then
      Report(if w.cancelled(s.log) then Cleaned(0, [t.path], [], []) else Cleaned(0, [], [t.path], []), [s.results])
    else Report(s.cleaned, [s.results])
  }

  /** The step machine: runs the steps of one target in order and reports. */
  method ExecuteCapability(w: World, plan: Plan, index: int, spot: Spot) returns (report: Report)
    ensures !(0 <= index < |plan.targets|) ==> report.executions == [] && !Clean(report.cleaned)
    ensures 0 <= index < |plan.targets| ==>
      report == Finished(w, plan.targets[index], Run(w, plan, plan.targets[index], spot, Mine(StepsUpTo(plan, |plan.targets|), index)))
  {
    hide Perform, StepsUpTo;
    if index < 0 || |plan.targets| <= index {
      return Report(Cleaned(0, [], ["plan:target"], []), []);
    }
    var target := plan.targets[index];
    var s := START;
    var steps := Steps(plan);
    for i := 0 to |steps|
      invariant s == Run(w, plan, target, spot, Mine(steps[..i], index))
    {
      var step := steps[i];
      assert steps[..i + 1][..i] == steps[..i];
      if step.target == index {
        ghost var mine := Mine(steps[..i + 1], index);
        assert mine[..|mine| - 1] == Mine(steps[..i], index);
        s := Advance(w, plan, target, spot, s, step);
      }
    }
    assert steps[..|steps|] == steps;
    report := Finished(w, target, s);
  }

  ghost predicate Complete(report: Report)
  {
    && (exists i :: 0 <= i < |report.executions| && report.executions[i] != [])
    && (forall i :: 0 <= i < |report.executions| ==> AllSucceeded(report.executions[i]))
    && Clean(report.cleaned)
  }

  /** Whether a report is one of a complete cleanup. */
  method ExecutionResult(report: Report) returns (ok: bool)
    ensures ok <==> Complete(report)
  {
    var steps := 0;
    for i := 0 to |report.executions|
      invariant forall j :: 0 <= j < i ==> AllSucceeded(report.executions[j])
      invariant steps > 0 <==> exists j :: 0 <= j < i && report.executions[j] != []
      invariant steps >= 0
    {
      var results := report.executions[i];
      ghost var before := steps;
      for k := 0 to |results|
        invariant forall m :: 0 <= m < k ==> results[m].status == Succeeded
        invariant steps == before + k
      {
        steps := steps + 1;
        if results[k].status != Succeeded {
          assert !AllSucceeded(report.executions[i]);
          return false;
        }
      }
    }
    if steps == 0 { return false; }
    ok := Clean(report.cleaned);
  }

  /** An apply that succeeded leaves a clean report, so a run that is not stuck has one. */
  lemma {:induction false} UnstuckIsClean(w: World, plan: Plan, t: Target, spot: Spot, steps: seq<Step>)
    ensures var s := Run(w, plan, t, spot, steps); !s.stuck ==> Clean(s.cleaned)
  {
    if steps != [] {
      UnstuckIsClean(w, plan, t, spot, steps[..|steps| - 1]);
    }
  }

  /** A run counts as complete exactly when every step succeeded; any other leaves a failed, skipped or manual entry. */
  lemma {:induction false} CompleteIsAllSucceeded(w: World, plan: Plan, index: nat, spot: Spot)
    requires index < |plan.targets|
    ensures var s := Run(w, plan, plan.targets[index], spot, Mine(StepsUpTo(plan, |plan.targets|), index));
      var report := Finished(w, plan.targets[index], s);
      && report.executions == [s.results]
      && (if s.stuck && Clean(s.cleaned) then
            && report.cleaned.ok == 0 && report.cleaned.manual == [] && report.cleaned.skipped + report.cleaned.failed == [plan.targets[index].path]
            && (report.cleaned.skipped != [] <==> w.cancelled(s.log))
          else report.cleaned == s.cleaned)
      && (Complete(report) <==> AllSucceeded(s.results))
      && (!Complete(report) ==> !Clean(report.cleaned))
  {
    hide Run, StepsUpTo, Mine;
    var t, steps := plan.targets[index], Mine(StepsUpTo(plan, |plan.targets|), index);
    TargetSteps(plan, |plan.targets|, index);
    RunStops(w, plan, t, spot, steps);
    UnstuckIsClean(w, plan, t, spot, steps);
    var s := Run(w, plan, t, spot, steps);
    var report := Finished(w, t, s);
    assert report.executions[0] == s.results && s.results != [];
  }

  /**
   * Completeness needs proof: in a complete cleanup the target was applied to once, and the last call asked for its own
   * completion condition, or exactly when the executor fell back for its contents to be gone, and was answered yes.
   */
  lemma {:induction false} CompleteIsVerified(w: World, plan: Plan, index: nat, spot: Spot)
    requires index < |plan.targets|
    requires plan.targets[index].operation.kind != OfficialUninstall || !plan.app
    ensures var t := plan.targets[index];
      var s := Run(w, plan, t, spot, Mine(StepsUpTo(plan, |plan.targets|), index));
      AllSucceeded(s.results) ==> Applies(s.log) == 1 && LastIsConfirmed(w, t, s.log)
  {
    hide StepsUpTo, Mine, Applies, LastIsConfirmed;
    var t, steps := plan.targets[index], Mine(StepsUpTo(plan, |plan.targets|), index);
    TargetSteps(plan, |plan.targets|, index);
    RunStops(w, plan, t, spot, steps);
    RunApplies(w, plan, t, spot, steps);
    OneApply(plan, t, steps);
    var n := |steps| - 1;
    var before := Run(w, plan, t, spot, steps[..n]);
    assert steps[n].action == Verify(Some(Completion(t)));
    LastVerify(w, plan, t, spot, before, steps[n]);
  }

  /** The condition that settles a target of its own kind. */
  predicate Settles(t: Target, c: Condition)
  {
    match c
    case PathAbsent(path) => t.operation.kind in {File, Tree} && path == t.path
    case ContentsEmpty(path) => t.operation.kind == Contents && path == t.path
    case ReferenceAbsent(reference) => t.operation.kind == Docker && reference == t.operation.reference
    case SnapshotAbsent(name) => t.operation.kind == Snapshot && name == t.operation.name
    case PreviewEmpty => t.operation.kind == Brew
    case CacheAbsent(path) => t.operation.kind == Go && path == t.path
    case StoreHealthy(path) => t.operation.kind == Pnpm && path == t.path
    case TrashEmpty(root) => t.operation.kind == Trash && root == t.path
    case WorktreeAbsent(checkout, registration) => t.operation.kind == GitWorktree && checkout == t.path && registration == t.operation.registration
    case RegistrationAbsent(identifier) => t.operation.kind in {Native, Registration} && identifier == t.path
    case ArtifactsAbsent(root) => t.operation.kind == OfficialUninstall && root == t.path
  }

  ghost predicate LastIsConfirmed(w: World, t: Target, log: seq<Call>)
  {
    && |log| >= 3 && log[|log| - 1].AskCompletion? && log[|log| - 3].AskEffective?
    && (if w.fallback(log[..|log| - 3]) then log[|log| - 1].condition == ContentsEmpty(t.path) else Settles(t, log[|log| - 1].condition))
    && w.completion(log[..|log| - 1], log[|log| - 1].condition) == Confirmed
  }

  lemma LastVerify(w: World, plan: Plan, t: Target, spot: Spot, s: State, step: Step)
    requires step.action == Verify(Some(Completion(t)))
    ensures var r := Advance(w, plan, t, spot, s, step); !r.stuck ==> LastIsConfirmed(w, t, r.log)
  {
    hide Settles;
    CompletionSettles(t);
    var action := Effective(w, t, s.log, step.action);
    var asked := s.log + [AskEffective(step.action)] + [AskCancelled];
    var log := asked + [AskCompletion(action.condition.value)];
    assert log[..|asked|] == asked && log[..|s.log|] == s.log;
  }

  lemma CompletionSettles(t: Target)
    ensures Settles(t, Completion(t))
  {
  }
}
