/**
 The background persistence protocol: an owner that queues snapshots, one writer
 that saves the newest, and callers that wait for it. Every critical section is one
 action; a run is any interleaving of them.
 */
module Persistence {
  import opened Words

  /** A snapshot is known by identity. */
  type Scan = nat

  datatype Request = Request(scan: Scan, event: nat, sequence: nat, incremental: bool)

  /** What became of a save: whether it succeeded, whether it wrote a new base, and what loading that base gave. */
  datatype Outcome = Outcome(ok: bool, compacted: bool, loaded: Option<Loaded>)
  datatype Loaded = Loaded(scan: Scan, event: nat)

  datatype Done = Done(request: Request, outcome: Outcome)

  /** A Flush call: waiting on a channel generation, or past its wait with the error it saw after n saves. */
  datatype Waiter = Waiting(target: nat, channel: nat) | Through(target: nat, ok: bool, n: nat)

  datatype Protocol = Protocol(
    pending: Option<Request>, running: bool, queued: nat, completed: nat, channel: nat, ok: bool,
    original: Option<Scan>, rebound: Option<Scan>, event: nat,
    cached: Option<Scan>, eventID: nat,
    flight: Option<Request>, requests: seq<Request>, log: seq<Done>, waiters: seq<Waiter>)

  datatype Action =
    | Queue(scan: Scan, event: nat, incremental: bool)
    | Take
    | Finish(outcome: Outcome)
    | Adopt
    | Publish(scan: Scan, event: nat)
    | Remember(scan: Scan, sameVolume: bool)
    | FlushStart
    | FlushWake(waiter: nat)

  const START := Protocol(None, false, 0, 0, 0, true, None, None, 0, None, 0, None, [], [], [])

  // -- The actions ------------------------------------------------------------------------

  /** The snapshot to adopt after a save: only a new base is loaded back, and only at the saved event. */
  function Rebound(r: Request, o: Outcome): Option<Scan>
  {
    if o.ok && (o.compacted || !r.incremental) && o.loaded.Some? && o.loaded.value.event == r.event then Some(o.loaded.value.scan) else None
  }

  function QueueStep(s: Protocol, scan: Scan, event: nat, incremental: bool): Protocol
  {
    var r := Request(scan, event, s.queued + 1, incremental);
    s.(queued := s.queued + 1, pending := Some(r), running := true, requests := s.requests + [r])
  }

  function TakeStep(s: Protocol): Protocol
  {
    if s.pending.None? then s.(running := false) else s.(pending := None, flight := s.pending)
  }

  function FinishStep(s: Protocol, o: Outcome): Protocol
    requires s.flight.Some?
  {
    var r := s.flight.value;
    s.(completed := r.sequence, ok := o.ok, original := Some(r.scan), rebound := Rebound(r, o), event := r.event,
       channel := s.channel + 1, flight := None, log := s.log + [Done(r, o)])
  }

  function AdoptStep(s: Protocol): Protocol
  {
    if s.rebound.Some? && s.cached == s.original && s.eventID == s.event
    then s.(cached := s.rebound, original := None, rebound := None)
    else s
  }

  /** What a waiter finds when it holds the lock. */
  function Look(s: Protocol, target: nat): Waiter
  {
    if s.completed < target then Waiting(target, s.channel) else Through(target, s.ok, |s.log|)
  }

  predicate Enabled(s: Protocol, a: Action)
  {
    match a
    case Take => s.running && s.flight.None?
    case Finish(_) => s.flight.Some?
    case FlushWake(w) => w < |s.waiters| && s.waiters[w].Waiting? && s.waiters[w].channel < s.channel
    case _ => true
  }

  function Next(s: Protocol, a: Action): Protocol
    requires Enabled(s, a)
  {
    match a
    case Queue(scan, event, incremental) => QueueStep(s, scan, event, incremental)
    case Take => TakeStep(s)
    case Finish(o) => FinishStep(s, o)
    case Adopt => AdoptStep(s)
    case Publish(scan, event) => s.(cached := Some(scan), eventID := event)
    case Remember(scan, sameVolume) => s.(cached := Some(scan), eventID := if s.cached.Some? && sameVolume then s.eventID else 0)
    case FlushStart => s.(waiters := s.waiters + [Look(s, s.queued)])
    case FlushWake(w) => s.(waiters := s.waiters[w := Look(s, s.waiters[w].target)])
  }

  lemma FinishIsStep(s: Protocol, o: Outcome)
    requires s.flight.Some?
    ensures Next(s, Finish(o)) == FinishStep(s, o)
  {
  }

  // -- The invariant -------------------------------------------------------------------------

  ghost predicate Numbered(s: Protocol)
  {
    && |s.requests| == s.queued
    && forall i :: 0 <= i < |s.requests| ==> s.requests[i].sequence == i + 1
  }

  ghost predicate Issued(s: Protocol, r: Request)
  {
    0 < r.sequence <= |s.requests| && s.requests[r.sequence - 1] == r
  }

  /** One writer, holding at most one request, with at most one newer behind it. */
  ghost predicate WriterOk(s: Protocol)
  {
    && s.completed <= s.queued
    && (s.pending.Some? ==> s.running && s.pending.value.sequence == s.queued && Issued(s, s.pending.value))
    && (s.flight.Some? ==> s.running && s.completed < s.flight.value.sequence && Issued(s, s.flight.value))
    && (s.flight.Some? && s.pending.Some? ==> s.flight.value.sequence < s.queued)
    && (s.flight.Some? && s.pending.None? ==> s.flight.value.sequence == s.queued)
    && (s.flight.None? && s.pending.None? ==> s.completed == s.queued)
    && (s.pending.Some? ==> s.completed < s.queued)
  }

  /** Saves happened in increasing sequence, and the last one is what `completed` and the error report. */
  ghost predicate LogOk(s: Protocol)
  {
    && (forall i :: 0 <= i < |s.log| ==> Issued(s, s.log[i].request))
    && (forall i, j :: 0 <= i < j < |s.log| ==> s.log[i].request.sequence < s.log[j].request.sequence)
    && (s.log == [] ==> s.completed == 0 && s.ok)
    && (s.log != [] ==> var d := s.log[|s.log| - 1]; d.request.sequence == s.completed && d.outcome.ok == s.ok)
  }

  /** A snapshot ready for adoption was loaded from the base just written for `original` at `event`. */
  ghost predicate ReboundOk(s: Protocol)
  {
    s.rebound.Some? ==> s.log != [] && BuiltFrom(s.log[|s.log| - 1], s.original, s.event, s.rebound.value)
  }

  predicate BuiltFrom(d: Done, original: Option<Scan>, event: nat, scan: Scan)
  {
    && d.outcome.ok && (d.outcome.compacted || !d.request.incremental)
    && original == Some(d.request.scan) && event == d.request.event && d.outcome.loaded == Some(Loaded(scan, event))
  }

  ghost predicate WaiterOk(s: Protocol, w: Waiter)
  {
    match w
    case Waiting(target, channel) => target <= s.queued && channel <= s.channel && (channel == s.channel ==> s.completed < target)
    case Through(target, ok, n) => n <= |s.log| && (if n == 0 then target == 0 && ok else target <= s.log[n - 1].request.sequence && ok == s.log[n - 1].outcome.ok)
  }

  ghost predicate Inv(s: Protocol)
  {
    && Numbered(s) && WriterOk(s) && LogOk(s) && ReboundOk(s)
    && forall w :: 0 <= w < |s.waiters| ==> WaiterOk(s, s.waiters[w])
  }

  lemma QueueKeeps(s: Protocol, scan: Scan, event: nat, incremental: bool)
    requires Inv(s)
    ensures Inv(QueueStep(s, scan, event, incremental))
  {
    var t := QueueStep(s, scan, event, incremental);
    forall i | 0 <= i < |t.log| ensures Issued(t, t.log[i].request) { assert Issued(s, s.log[i].request); }
    forall w | 0 <= w < |t.waiters| ensures WaiterOk(t, t.waiters[w]) { assert WaiterOk(s, s.waiters[w]); }
  }

  lemma FinishKeeps(s: Protocol, o: Outcome)
    requires Inv(s) && s.flight.Some?
    ensures Inv(FinishStep(s, o))
  {
    var t := FinishStep(s, o);
    forall i | 0 <= i < |t.log| ensures Issued(t, t.log[i].request) {
      if i < |s.log| { assert Issued(s, s.log[i].request); }
    }
    forall i, j | 0 <= i < j < |t.log| ensures t.log[i].request.sequence < t.log[j].request.sequence {
      if j == |s.log| { assert s.log[i].request.sequence <= s.log[|s.log| - 1].request.sequence; }
    }
    forall w | 0 <= w < |t.waiters| ensures WaiterOk(t, t.waiters[w]) { assert WaiterOk(s, s.waiters[w]); }
  }

  lemma LookOk(s: Protocol, target: nat)
    requires Inv(s) && target <= s.queued
    ensures WaiterOk(s, Look(s, target))
  {
  }

  lemma WaitersKeep(s: Protocol, t: Protocol)
    requires Inv(s) && t.waiters == s.waiters && t.queued == s.queued && t.channel == s.channel && t.completed == s.completed && t.log == s.log
    ensures forall w :: 0 <= w < |t.waiters| ==> WaiterOk(t, t.waiters[w])
  {
    forall w | 0 <= w < |t.waiters| ensures WaiterOk(t, t.waiters[w]) { assert WaiterOk(s, s.waiters[w]); }
  }

  lemma LogKeeps(s: Protocol, t: Protocol)
    requires Inv(s) && t.log == s.log && t.requests == s.requests && t.completed == s.completed && t.ok == s.ok
    ensures LogOk(t)
  {
    forall i | 0 <= i < |t.log| ensures Issued(t, t.log[i].request) { assert Issued(s, s.log[i].request); }
  }

  /** Every action keeps the invariant. */
  lemma StepKeeps(s: Protocol, a: Action)
    requires Inv(s) && Enabled(s, a)
    ensures Inv(Next(s, a))
  {
    hide LogOk, WaiterOk, Numbered, Look;
    match a {
      case Queue(scan, event, incremental) => QueueKeeps(s, scan, event, incremental);
      case Finish(o) => FinishKeeps(s, o);
      case FlushStart =>
        LookOk(s, s.queued);
        FlushKeeps(s, Next(s, a), |s.waiters|, s.queued);
      case FlushWake(w) =>
        WaitingTarget(s, w);
        LookOk(s, s.waiters[w].target);
        FlushKeeps(s, Next(s, a), w, s.waiters[w].target);
      case _ =>
        LogKeeps(s, Next(s, a));
        WaitersKeep(s, Next(s, a));
        NumberedKeeps(s, Next(s, a));
    }
  }

  lemma NumberedKeeps(s: Protocol, t: Protocol)
    requires Numbered(s) && t.requests == s.requests && t.queued == s.queued
    ensures Numbered(t)
  {
  }

  lemma WaitingTarget(s: Protocol, w: nat)
    requires Inv(s) && w < |s.waiters| && s.waiters[w].Waiting?
    ensures s.waiters[w].target <= s.queued
  {
    assert WaiterOk(s, s.waiters[w]);
  }

  lemma FlushKeeps(s: Protocol, t: Protocol, w: nat, target: nat)
    requires Inv(s) && target <= s.queued && w <= |s.waiters|
    requires t == s.(waiters := if w < |s.waiters| then s.waiters[w := Look(s, target)] else s.waiters + [Look(s, target)])
    ensures Inv(t)
  {
    hide Look, WaiterOk, Numbered, WriterOk, LogOk, ReboundOk;
    LookOk(s, target);
    OnlyWaiters(s, t);
    forall i | 0 <= i < |t.waiters| ensures WaiterOk(t, t.waiters[i]) {
      var x := t.waiters[i];
      if i != w { assert WaiterOk(s, s.waiters[i]); }
      SameWaiter(s, t, x);
    }
  }

  lemma SameWaiter(s: Protocol, t: Protocol, x: Waiter)
    requires WaiterOk(s, x) && t.log == s.log && t.queued == s.queued && t.completed == s.completed && t.channel == s.channel
    ensures WaiterOk(t, x)
  {
  }

  lemma OnlyWaiters(s: Protocol, t: Protocol)
    requires Numbered(s) && WriterOk(s) && LogOk(s) && ReboundOk(s) && t == s.(waiters := t.waiters)
    ensures Numbered(t) && WriterOk(t) && LogOk(t) && ReboundOk(t)
  {
    forall i | 0 <= i < |t.log| ensures Issued(t, t.log[i].request) { assert Issued(s, s.log[i].request); }
  }

  // -- Runs ----------------------------------------------------------------------------------------

  /** The state after some actions, if each was enabled in turn. */
  function Run(actions: seq<Action>): (r: Option<Protocol>)
  {
    if actions == [] then Some(START)
    else
      match Run(actions[..|actions| - 1])
      case None => None
      case Some(s) => if Enabled(s, actions[|actions| - 1]) then Some(Next(s, actions[|actions| - 1])) else None
  }

  lemma {:induction false} RunsKeep(actions: seq<Action>)
    requires Run(actions).Some?
    ensures Inv(Run(actions).value)
  {
    hide Inv;
    if actions == [] {
      StartOk();
    } else {
      RunsKeep(actions[..|actions| - 1]);
      StepKeeps(Run(actions[..|actions| - 1]).value, actions[|actions| - 1]);
    }
  }

  lemma StartOk()
    ensures Inv(START)
  {
  }

  // -- What callers may rely on -----------------------------------------------------------------------

  /** In every run saves happen in strictly increasing sequence, each for a request that was queued. */
  lemma {:induction false} SavesIncrease(actions: seq<Action>, i: nat, j: nat)
    requires Run(actions).Some? && i < j < |Run(actions).value.log|
    ensures Run(actions).value.log[i].request.sequence < Run(actions).value.log[j].request.sequence
    ensures Run(actions).value.log[j].request in Run(actions).value.requests
  {
    RunsKeep(actions);
    var s := Run(actions).value;
    assert Issued(s, s.log[j].request);
  }

  /** In every run, while something queued is not completed, a writer is running and the newest request is pending or in flight. */
  lemma {:induction false} NewestIsOnItsWay(actions: seq<Action>)
    requires Run(actions).Some? && Run(actions).value.completed < Run(actions).value.queued
    ensures Run(actions).value.running && Run(actions).value.requests != []
    ensures var s := Run(actions).value;
            var newest := s.requests[|s.requests| - 1];
            s.pending == Some(newest) || (s.pending.None? && s.flight == Some(newest))
  {
    RunsKeep(actions);
  }

  /** The writer alone then completes the newest request within two rounds, whatever the outcomes. */
  lemma {:induction false} WriterCatchesUp(actions: seq<Action>, o1: Outcome, o2: Outcome)
    requires Run(actions).Some? && Run(actions).value.completed < Run(actions).value.queued
    ensures var s := Run(actions).value;
            if s.flight.Some? && s.pending.Some? then
              && Enabled(s, Finish(o1)) && Enabled(Next(s, Finish(o1)), Take) && Enabled(Next(Next(s, Finish(o1)), Take), Finish(o2))
              && Next(Next(Next(s, Finish(o1)), Take), Finish(o2)).completed == s.queued
            else if s.flight.Some? then
              Enabled(s, Finish(o1)) && Next(s, Finish(o1)).completed == s.queued
            else
              Enabled(s, Take) && Enabled(Next(s, Take), Finish(o1)) && Next(Next(s, Take), Finish(o1)).completed == s.queued
  {
    RunsKeep(actions);
  }

  /** In every run, a Flush that got through without an error saw a successful save at least as new as everything
      queued before the call, or nothing had been queued. */
  lemma {:induction false} FlushCovers(actions: seq<Action>, w: nat)
    requires Run(actions).Some? && w < |Run(actions).value.waiters|
    requires Run(actions).value.waiters[w].Through? && Run(actions).value.waiters[w].ok
    ensures var s := Run(actions).value; var f := s.waiters[w];
            f.target == 0 || (0 < f.n <= |s.log| && s.log[f.n - 1].outcome.ok && f.target <= s.log[f.n - 1].request.sequence)
  {
    hide Run, Numbered, LogOk, ReboundOk;
    RunsKeep(actions);
    assert WaiterOk(Run(actions).value, Run(actions).value.waiters[w]);
  }

  /** No wake-up is lost: a waiter still on the open channel has something left to wait for. */
  lemma {:induction false} NoLostWakeup(actions: seq<Action>, w: nat)
    requires Run(actions).Some? && w < |Run(actions).value.waiters| && Run(actions).value.waiters[w].Waiting?
    ensures var s := Run(actions).value;
            s.completed >= s.waiters[w].target ==> Enabled(s, FlushWake(w)) && Next(s, FlushWake(w)).waiters[w].Through?
  {
    RunsKeep(actions);
    assert WaiterOk(Run(actions).value, Run(actions).value.waiters[w]);
  }

  /** Adoption swaps in only the base loaded back from saving the very snapshot and event the owner holds; the event stays. */
  lemma {:induction false} AdoptionIsExact(actions: seq<Action>)
    requires Run(actions).Some? && Next(Run(actions).value, Adopt).cached != Run(actions).value.cached
    ensures var s, t := Run(actions).value, Next(Run(actions).value, Adopt);
            && t.cached.Some? && s.log != [] && BuiltFrom(s.log[|s.log| - 1], s.cached, s.eventID, t.cached.value)
            && t.eventID == s.eventID
  {
    RunsKeep(actions);
  }

  /** And it happens: when the last save was of what the owner holds and its new base was loaded back, adopting takes that base over. */
  lemma {:induction false} AdoptionHappens(actions: seq<Action>, o: Outcome, scan: Scan)
    requires Run(actions).Some? && Run(actions).value.flight.Some?
    requires o.ok && o.loaded == Some(Loaded(scan, Run(actions).value.flight.value.event))
    requires o.compacted || !Run(actions).value.flight.value.incremental
    requires Run(actions).value.cached == Some(Run(actions).value.flight.value.scan) && Run(actions).value.eventID == Run(actions).value.flight.value.event
    ensures var r := Run(actions + [Finish(o), Adopt]); r.Some? && r.value.cached == Some(scan) && r.value.eventID == Run(actions).value.eventID
  {
    hide Inv;
    RunNext(actions, Finish(o));
    RunNext(actions + [Finish(o)], Adopt);
    assert actions + [Finish(o)] + [Adopt] == actions + [Finish(o), Adopt];
  }

  lemma {:induction false} RunNext(actions: seq<Action>, a: Action)
    ensures Run(actions + [a]) == match Run(actions) case None => None case Some(s) => if Enabled(s, a) then Some(Next(s, a)) else None
  {
    hide Enabled, Next;
    assert (actions + [a])[..|actions|] == actions;
  }

  // -- What a run's state remembers ----------------------------------------------------------------------

  /** The owner's event comes from this action: the last one published, no other volume remembered since. */
  ghost predicate EventFrom(actions: seq<Action>, i: nat)
  {
    && i < |actions| && actions[i].Publish?
    && forall j :: i < j < |actions| ==> !actions[j].Publish? && (actions[j].Remember? ==> actions[j].sameVolume)
  }

  /** The event a replay starts from is the last one published if no other volume was remembered since, and zero otherwise. */
  lemma {:induction false} EventIsPublished(actions: seq<Action>)
    requires Run(actions).Some?
    ensures forall i: nat :: EventFrom(actions, i) ==> Run(actions).value.eventID == actions[i].event && Run(actions).value.cached.Some?
    ensures (forall i: nat :: !EventFrom(actions, i)) ==> Run(actions).value.eventID == 0
  {
    hide Inv;
    if actions != [] {
      var n := |actions| - 1;
      var init, a := actions[..n], actions[n];
      EventIsPublished(init);
      assert a.Publish? ==> EventFrom(actions, n);
      forall i: nat ensures EventFrom(actions, i) <==> if a.Publish? then i == n else EventFrom(init, i) && (a.Remember? ==> a.sameVolume) {
        EventNext(init, a, i);
        assert init + [a] == actions;
      }
      CachedStays(Run(init).value, a);
    }
  }

  lemma EventNext(init: seq<Action>, a: Action, i: nat)
    ensures EventFrom(init + [a], i) <==> if a.Publish? then i == |init| else EventFrom(init, i) && (a.Remember? ==> a.sameVolume)
  {
    var all := init + [a];
    assert all[|init|] == a;
    assert forall j :: 0 <= j < |init| ==> all[j] == init[j];
    if EventFrom(init, i) && !a.Publish? && (a.Remember? ==> a.sameVolume) { assert EventFrom(all, i); }
  }

  lemma CachedStays(s: Protocol, a: Action)
    requires Enabled(s, a)
    ensures s.cached.Some? ==> Next(s, a).cached.Some?
  {
  }

  /** What the owner holds was last published or remembered, or was loaded back by a save at the owner's event. */
  lemma {:induction false} HeldWasGiven(actions: seq<Action>)
    requires Run(actions).Some? && Run(actions).value.cached.Some?
    ensures var s := Run(actions).value;
      (exists i: nat :: GivenLast(actions, i) && s.cached == Some(actions[i].scan)) || LoadedBack(s.log, s.cached.value, s.eventID)
  {
    hide Inv, Rebound, Look, LoadedBack;
    var n := |actions| - 1;
    var init, a := actions[..n], actions[n];
    var m, s := Run(init).value, Run(actions).value;
    if a.Publish? || a.Remember? {
      assert GivenLast(actions, n);
    } else if a == Adopt && s.cached != m.cached {
      AdoptionIsExact(init);
      LoadedLast(s.log, s.cached.value, s.eventID, m.cached);
    } else {
      assert s.cached == m.cached && s.eventID == m.eventID;
      HeldWasGiven(init);
      if i: nat :| GivenLast(init, i) && m.cached == Some(init[i].scan) { assert GivenLast(actions, i); }
      LogGrows(m, a);
      LoadedStays(m.log, s.log, m.cached.value, m.eventID);
    }
  }

  lemma LoadedLast(log: seq<Done>, scan: Scan, event: nat, original: Option<Scan>)
    requires log != [] && BuiltFrom(log[|log| - 1], original, event, scan)
    ensures LoadedBack(log, scan, event)
  {
  }

  lemma LoadedStays(log: seq<Done>, more: seq<Done>, scan: Scan, event: nat)
    requires log <= more
    ensures LoadedBack(log, scan, event) ==> LoadedBack(more, scan, event)
  {
    forall k | 0 <= k < |log| ensures more[k] == log[k] { }
  }

  ghost predicate GivenLast(actions: seq<Action>, i: nat)
  {
    && i < |actions| && (actions[i].Publish? || actions[i].Remember?)
    && forall j :: i < j < |actions| ==> !actions[j].Publish? && !actions[j].Remember?
  }

  ghost predicate LoadedBack(log: seq<Done>, scan: Scan, event: nat)
  {
    exists k :: 0 <= k < |log| && log[k].outcome.ok && log[k].outcome.loaded == Some(Loaded(scan, event))
  }

  /** The requests a run's queue actions make, in order. */
  function Queued(actions: seq<Action>): (r: seq<Request>)
  {
    if actions == [] then []
    else
      var before, a := Queued(actions[..|actions| - 1]), actions[|actions| - 1];
      if a.Queue? then before + [Request(a.scan, a.event, |before| + 1, a.incremental)] else before
  }

  /** The outcomes of a run's saves, in order. */
  function Outcomes(actions: seq<Action>): (r: seq<Outcome>)
  {
    if actions == [] then []
    else
      var before, a := Outcomes(actions[..|actions| - 1]), actions[|actions| - 1];
      if a.Finish? then before + [a.outcome] else before
  }

  /** How many requests each flush of a run found queued. */
  function Targets(actions: seq<Action>): (r: seq<nat>)
  {
    if actions == [] then []
    else
      var before, a := Targets(actions[..|actions| - 1]), actions[|actions| - 1];
      if a.FlushStart? then before + [|Queued(actions)|] else before
  }

  /** A run's requests are those queued, its saves ended as they did, and its flushes wait for what was queued before them. */
  lemma {:induction false} HistoryIsKept(actions: seq<Action>)
    requires Run(actions).Some?
    ensures var s := Run(actions).value;
      && s.requests == Queued(actions) && s.queued == |Queued(actions)|
      && |s.log| == |Outcomes(actions)| && (forall k :: 0 <= k < |s.log| ==> s.log[k].outcome == Outcomes(actions)[k])
      && |s.waiters| == |Targets(actions)| && (forall w :: 0 <= w < |s.waiters| ==> s.waiters[w].target == Targets(actions)[w])
  {
    hide Inv, Rebound;
    if actions != [] { HistoryIsKept(actions[..|actions| - 1]); }
  }

  /** Some completed save is of this snapshot at this event. */
  ghost predicate Saved(log: seq<Done>, scan: Option<Scan>, event: nat)
  {
    exists i :: 0 <= i < |log| && scan == Some(log[i].request.scan) && event == log[i].request.event
  }

  /**
   * Newer edits survive: once the owner holds a snapshot, no interleaving of queueing, older saves, their completions,
   * adoptions and waits takes it away or moves its event before a save of that very snapshot has completed.
   */
  lemma {:induction false} NewerEditsSurvive(before: seq<Action>, after: seq<Action>)
    requires Run(before).Some? && Run(before + after).Some?
    requires forall a :: a in after ==> !a.Publish? && !a.Remember?
    requires !Saved(Run(before + after).value.log, Run(before).value.cached, Run(before).value.eventID)
    ensures Run(before + after).value.cached == Run(before).value.cached
    ensures Run(before + after).value.eventID == Run(before).value.eventID
    decreases |after|
  {
    hide Inv, ReboundOk;
    if after == [] {
      assert before + after == before;
    } else {
      var n := |after| - 1;
      var init, last := after[..n], after[n];
      assert (before + after)[..|before| + n] == before + init;
      var m, t := Run(before + init).value, Run(before + after).value;
      assert last in after;
      LogGrows(m, last);
      SavedStays(m.log, t.log, Run(before).value.cached, Run(before).value.eventID);
      NewerEditsSurvive(before, init);
      if last == Adopt && t.cached != m.cached { AdoptionIsExact(before + init); }
    }
  }

  lemma SavedStays(log: seq<Done>, more: seq<Done>, scan: Option<Scan>, event: nat)
    requires log <= more
    ensures Saved(log, scan, event) ==> Saved(more, scan, event)
  {
    forall i | 0 <= i < |log| ensures more[i] == log[i] { }
  }

  lemma LogGrows(s: Protocol, a: Action)
    requires Enabled(s, a)
    ensures s.log <= Next(s, a).log
  {
  }

  // -- The owner ------------------------------------------------------------------------------------------

  /** The index owner and its persistence fields. Each method is one critical section. */
  class MacDiskIndex {
    var pending: Option<Request>
    var running: bool
    var queued: nat
    var completed: nat
    // A channel is known by how many were closed before it.
    var changed: nat
    var ok: bool
    var original: Option<Scan>
    var rebound: Option<Scan>
    var event: nat
    var cached: Option<Scan>
    var eventID: nat
    // The request the writer goroutine holds.
    var flight: Option<Request>
    // What happened so far, and who is waiting.
    ghost var requests: seq<Request>
    ghost var done: seq<Done>
    ghost var waiters: seq<Waiter>

    ghost function State(): Protocol
      reads this
    {
      Protocol(pending, running, queued, completed, changed, ok, original, rebound, event, cached, eventID, flight, requests, done, waiters)
    }

    constructor ()
      ensures State() == START
    {
      pending, running, queued, completed, changed, ok := None, false, 0, 0, 0, true;
      original, rebound, event, cached, eventID, flight := None, None, 0, None, 0, None;
      requests, done, waiters := [], [], [];
    }

    /** Replaces the pending snapshot by a newer one; starts the writer if it is not running. */
    method QueuePersistence(scan: Scan, event: nat, incremental: bool) returns (start: bool)
      modifies this
      ensures State() == Next(old(State()), Queue(scan, event, incremental))
      ensures start == !old(running)
    {
      queued := queued + 1;
      var r := Request(scan, event, queued, incremental);
      pending := Some(r);
      requests := requests + [r];
      start := !running;
      if !running {
        running := true;
      }
    }

    /** The writer takes the pending request, or stops. */
    method TakeRequest() returns (r: Option<Request>)
      requires Enabled(State(), Take)
      modifies this
      ensures State() == Next(old(State()), Take) && r == old(pending)
    {
      r := pending;
      pending := None;
      if r.None? {
        running := false;
        return;
      }
      flight := r;
    }

    /** A snapshot of the base just written, if it loads back at the saved event. */
    method LoadBack(r: Request, o: Outcome) returns (adopt: Option<Scan>)
      ensures adopt == Rebound(r, o)
    {
      if o.ok && (o.compacted || !r.incremental) {
        if o.loaded.Some? && o.loaded.value.event == r.event {
          return Some(o.loaded.value.scan);
        }
      }
      return None;
    }

    /** The writer reports a save: its sequence and error, and the snapshot to adopt if a new base was loaded back. */
    method FinishSave(o: Outcome)
      requires Enabled(State(), Finish(o))
      modifies this
      ensures State() == Next(old(State()), Finish(o))
    {
      hide Rebound, Next;
      FinishIsStep(State(), o);
      var r := flight.value;
      var adopt := LoadBack(r, o);
      completed, ok := r.sequence, o.ok;
      original, rebound, event := Some(r.scan), adopt, r.event;
      changed := changed + 1;
      flight := None;
      done := done + [Done(r, o)];
    }

    method AdoptPersisted()
      modifies this
      ensures State() == Next(old(State()), Adopt)
    {
      if rebound.Some? && cached == original && eventID == event {
        cached := rebound;
        original, rebound := None, None;
      }
    }

    /** What Load and Advance end with. */
    method PublishScan(scan: Scan, event: nat)
      modifies this
      ensures State() == Next(old(State()), Publish(scan, event))
    {
      cached, eventID := Some(scan), event;
    }

    method RememberScan(scan: Scan, sameVolume: bool)
      modifies this
      ensures State() == Next(old(State()), Remember(scan, sameVolume))
    {
      if cached.None? || !sameVolume {
        eventID := 0;
      }
      cached := Some(scan);
    }

    /** The first locked section of Flush. */
    method BeginFlush() returns (target: nat, through: bool, good: bool)
      modifies this
      ensures State() == Next(old(State()), FlushStart)
      ensures target == queued && through == (completed >= target) && good == ok
    {
      target := queued;
      through, good := completed >= target, ok;
      waiters := waiters + [Look(State(), target)];
    }

    /** Flush woken by the channel it waited on. */
    method ResumeFlush(ghost w: nat, target: nat) returns (through: bool, good: bool)
      requires Enabled(State(), FlushWake(w)) && waiters[w].target == target
      modifies this
      ensures State() == Next(old(State()), FlushWake(w))
      ensures through == (completed >= target) && good == ok
    {
      through, good := completed >= target, ok;
      waiters := waiters[w := Look(State(), target)];
    }
  }
}
