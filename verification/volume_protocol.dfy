/** Every run of the allocator: any number of runs, each making one ReserveSet call, interleaved
    in any order. */
module VolumeProtocol {
  import opened Common
  import opened VolumeSearch
  import opened VolumeManagement

  /** Where a run is with its one ReserveSet call. */
  datatype Phase =
    | Parked(req: Request, channel: nat, abandoned: bool)
    | Holding(req: Request, added: set<Name>)
    | Done

  /** The manager and the runs that have called ReserveSet. */
  datatype System = System(mgr: State, runs: map<RunId, Phase>)

  datatype Step =
    | Call(run: RunId, req: Request)
    | Wake(run: RunId)
    | GiveUp(run: RunId)
    | Release(run: RunId)
    | ReleaseAgain(run: RunId)
    | Pin(run: RunId, key: MountPath)
    | Gate(names: set<Name>)

  ghost predicate Enabled(vols: Volumes, s: System, step: Step) {
    match step
    case Call(run, req) => run !in s.runs && WellFormed(vols, req)
    case Wake(run) => run in s.runs && s.runs[run].Parked? && s.runs[run].channel != s.mgr.changed
                      && WellFormed(vols, s.runs[run].req)
    case GiveUp(run) => run in s.runs && s.runs[run].Parked?
    case Release(run) => run in s.runs && s.runs[run].Holding?
    case ReleaseAgain(run) => run in s.runs && s.runs[run].Done?
    case Pin(run, key) => run in s.runs && s.runs[run].Holding? && key in s.runs[run].req.keys
    case Gate(_) => true
  }

  /** One scan for `run`, as VolumeManager.TryReserve performs it. */
  ghost function Attempt(vols: Volumes, s: System, run: RunId, req: Request): System
    requires WellFormed(vols, req)
  {
    match Scan(vols, s.mgr, run, req)
    case Wait(channel, abandoned) => System(s.mgr, s.runs[run := Parked(req, channel, abandoned)])
    case Acquired(chosen) =>
      var added := Added(s.mgr, run, chosen);
      System(Grant(s.mgr, run, added, req.keys), s.runs[run := Holding(req, added)])
  }

  ghost function Apply(vols: Volumes, s: System, step: Step): System
    requires Enabled(vols, s, step)
  {
    match step
    case Call(run, req) => Attempt(vols, s, run, req)
    case Wake(run) => Attempt(vols, s, run, s.runs[run].req)
    case GiveUp(run) => System(s.mgr, s.runs[run := Done])
    case Release(run) =>
      System(Drop(s.mgr, run, s.runs[run].added, s.runs[run].req.keys), s.runs[run := Done])
    case ReleaseAgain(run) => s
    case Pin(run, key) => System(s.mgr.(pinned := s.mgr.pinned + {key}), s.runs)
    case Gate(names) => System(s.mgr.(gated := names), s.runs)
  }

  /** The state after a sequence of steps from the empty manager; None if some step of it was
      not enabled where it came. */
  ghost function After(vols: Volumes, steps: seq<Step>): Option<System>
    decreases |steps|
  {
    if steps == [] then Some(System(INITIAL, map[]))
    else
      var before, last := After(vols, steps[..|steps| - 1]), steps[|steps| - 1];
      if before.Some? && Enabled(vols, before.value, last) then Some(Apply(vols, before.value, last)) else None
  }

  // ---------------------------------------------------------------------------------------
  // The invariant
  // ---------------------------------------------------------------------------------------

  ghost predicate Holds(s: System, run: RunId, n: Name) {
    run in s.runs && s.runs[run].Holding? && n in s.runs[run].added
  }

  ghost predicate Owns(s: System, run: RunId, key: MountPath) {
    run in s.runs && s.runs[run].Holding? && key in s.runs[run].req.keys
  }

  /** The holder table is exactly what the holding runs took, and no exclusive volume twice. */
  ghost predicate HoldersMatch(vols: Volumes, s: System) {
    && (forall n, run :: run in HoldersOf(s.mgr, n) <==> Holds(s, run, n))
    && (forall n :: n in s.mgr.holders ==> s.mgr.holders[n] != {})
    && (forall n, run, other :: Holds(s, run, n) && Holds(s, other, n) ==>
          run == other || (n in vols && vols[n].Shared?))
  }

  /** The reserved paths are exactly the pinned ones and those of the holding runs, one owner each. */
  ghost predicate PathsMatch(s: System) {
    && (forall run, key :: Owns(s, run, key) ==> key in s.mgr.paths)
    && (forall key :: key in s.mgr.pinned ==> key in s.mgr.paths)
    && (forall key :: key in s.mgr.paths ==> key in s.mgr.pinned || exists run :: Owns(s, run, key))
    && (forall key, run, other :: Owns(s, run, key) && Owns(s, other, key) ==> run == other)
  }

  /** No release is missed: a waiter parked on the channel that is still current, whose last scan
      was not abandoned, still cannot be served. */
  ghost predicate WaitersBlocked(vols: Volumes, s: System) {
    forall run :: run in s.runs && s.runs[run].Parked? ==>
      && WellFormed(vols, s.runs[run].req)
      && s.runs[run].channel <= s.mgr.changed
      && (s.runs[run].abandoned ==> TooLarge(s.runs[run].req))
      && (s.runs[run].channel == s.mgr.changed && !s.runs[run].abandoned ==>
            Blocked(vols, s.mgr, run, s.runs[run].req))
  }

  ghost predicate HoldersWellFormed(vols: Volumes, s: System) {
    forall run :: run in s.runs && s.runs[run].Holding? ==>
      WellFormed(vols, s.runs[run].req) && s.runs[run].added <= Names(s.runs[run].req.declared)
  }

  ghost predicate Inv(vols: Volumes, s: System) {
    HoldersMatch(vols, s) && PathsMatch(s) && WaitersBlocked(vols, s) && HoldersWellFormed(vols, s)
  }

  /** A step that frees nothing leaves a blocked run blocked. */
  lemma BlockedStaysBlocked(vols: Volumes, st: State, st': State, run: RunId, req: Request)
    requires Blocked(vols, st, run, req)
    requires st.paths <= st'.paths
    requires Free(vols, st', run) <= Free(vols, st, run)
    ensures Blocked(vols, st', run, req)
  {
    if req.keys !! st'.paths {
      NoneAdmissibleMonotone(req.declared, Free(vols, st', run), Free(vols, st, run));
    }
  }

  lemma GrantHolders(st: State, run: RunId, added: set<Name>, keys: set<MountPath>, n: Name)
    ensures HoldersOf(Grant(st, run, added, keys), n) == HoldersOf(st, n) + (if n in added then {run} else {})
  {
  }

  lemma DropHolders(st: State, run: RunId, added: set<Name>, keys: set<MountPath>, n: Name)
    ensures HoldersOf(Drop(st, run, added, keys), n) == HoldersOf(st, n) - (if n in added then {run} else {})
  {
  }

  lemma AttemptKeepsInv(vols: Volumes, s: System, run: RunId, req: Request)
    requires Inv(vols, s) && WellFormed(vols, req)
    requires run !in s.runs || s.runs[run].Parked?
    ensures Inv(vols, Attempt(vols, s, run, req))
  {
    var s' := Attempt(vols, s, run, req);
    ScanExact(vols, s.mgr, run, req);
    match Scan(vols, s.mgr, run, req) {
      case Wait(_, _) =>
        assert forall r, n :: Holds(s', r, n) <==> Holds(s, r, n);
        assert forall r, k :: Owns(s', r, k) <==> Owns(s, r, k);
      case Acquired(chosen) =>
        AcquireKeepsHolders(vols, s, run, req, chosen);
        AcquireKeepsPaths(s, run, req, Added(s.mgr, run, chosen));
        AcquireKeepsWaiters(vols, s, run, req, Added(s.mgr, run, chosen));
    }
  }

  lemma AcquireKeepsHolders(vols: Volumes, s: System, run: RunId, req: Request, chosen: seq<Name>)
    requires HoldersMatch(vols, s) && (run !in s.runs || s.runs[run].Parked?)
    requires forall n :: n in chosen ==> n in Free(vols, s.mgr, run)
    ensures var added := Added(s.mgr, run, chosen);
            HoldersMatch(vols, System(Grant(s.mgr, run, added, req.keys), s.runs[run := Holding(req, added)]))
  {
    var added := Added(s.mgr, run, chosen);
    var s' := System(Grant(s.mgr, run, added, req.keys), s.runs[run := Holding(req, added)]);
    forall n, r
      ensures r in HoldersOf(s'.mgr, n) <==> Holds(s', r, n)
    {
      GrantHolders(s.mgr, run, added, req.keys, n);
      assert r in HoldersOf(s.mgr, n) <==> Holds(s, r, n);
    }
    forall n | n in s'.mgr.holders
      ensures s'.mgr.holders[n] != {}
    {
      GrantHolders(s.mgr, run, added, req.keys, n);
    }
    forall n, r, other | Holds(s', r, n) && Holds(s', other, n)
      ensures r == other || (n in vols && vols[n].Shared?)
    {
      AcquireKeepsExclusion(vols, s, s', run, added, n, r, other);
    }
  }

  lemma AcquireKeepsExclusion(vols: Volumes, s: System, s': System, run: RunId, added: set<Name>, n: Name, r: RunId, other: RunId)
    requires HoldersMatch(vols, s) && (run !in s.runs || s.runs[run].Parked?)
    requires added <= Free(vols, s.mgr, run)
    requires run in s'.runs && s'.runs[run].Holding? && s'.runs[run].added == added
    requires s'.runs == s.runs[run := s'.runs[run]]
    requires Holds(s', r, n) && Holds(s', other, n)
    ensures r == other || (n in vols && vols[n].Shared?)
  {
    assert r != run ==> Holds(s, r, n) && r in HoldersOf(s.mgr, n);
    assert other != run ==> Holds(s, other, n) && other in HoldersOf(s.mgr, n);
  }

  lemma AcquireKeepsPaths(s: System, run: RunId, req: Request, added: set<Name>)
    requires PathsMatch(s) && (run !in s.runs || s.runs[run].Parked?) && req.keys !! s.mgr.paths
    ensures PathsMatch(System(Grant(s.mgr, run, added, req.keys), s.runs[run := Holding(req, added)]))
  {
    var s' := System(Grant(s.mgr, run, added, req.keys), s.runs[run := Holding(req, added)]);
    OwnsAfter(s, s', run);
    assert forall k :: Owns(s', run, k) <==> k in req.keys;
    forall k | k in s'.mgr.paths && k !in s'.mgr.pinned
      ensures exists r :: Owns(s', r, k)
    {
      if k in req.keys {
        assert Owns(s', run, k);
      } else {
        var r :| Owns(s, r, k);
        assert Owns(s', r, k);
      }
    }
  }

  /** A step of one run leaves alone what the other runs hold and own. */
  lemma HoldsAfter(s: System, s': System, run: RunId)
    requires run in s'.runs && s'.runs == s.runs[run := s'.runs[run]]
    ensures forall r, n :: r != run ==> (Holds(s', r, n) <==> Holds(s, r, n))
  {
  }

  lemma OwnsAfter(s: System, s': System, run: RunId)
    requires run in s'.runs && s'.runs == s.runs[run := s'.runs[run]]
    ensures forall r, k :: r != run ==> (Owns(s', r, k) <==> Owns(s, r, k))
  {
  }

  lemma AcquireKeepsWaiters(vols: Volumes, s: System, run: RunId, req: Request, added: set<Name>)
    requires WaitersBlocked(vols, s)
    ensures WaitersBlocked(vols, System(Grant(s.mgr, run, added, req.keys), s.runs[run := Holding(req, added)]))
  {
    var s' := System(Grant(s.mgr, run, added, req.keys), s.runs[run := Holding(req, added)]);
    forall r | r in s'.runs && s'.runs[r].Parked? && s'.runs[r].channel == s'.mgr.changed && !s'.runs[r].abandoned
      ensures Blocked(vols, s'.mgr, r, s'.runs[r].req)
    {
      assert r != run;
      forall n | n in Free(vols, s'.mgr, r)
        ensures n in Free(vols, s.mgr, r)
      {
        GrantHolders(s.mgr, run, added, req.keys, n);
      }
      BlockedStaysBlocked(vols, s.mgr, s'.mgr, r, s.runs[r].req);
    }
  }

  lemma ReleaseKeepsInv(vols: Volumes, s: System, run: RunId)
    requires Inv(vols, s) && run in s.runs && s.runs[run].Holding?
    ensures Inv(vols, Apply(vols, s, Release(run)))
  {
    var s' := Apply(vols, s, Release(run));
    var added, keys := s.runs[run].added, s.runs[run].req.keys;
    forall n
      ensures HoldersOf(s'.mgr, n) == HoldersOf(s.mgr, n) - (if n in added then {run} else {})
    {
      DropHolders(s.mgr, run, added, keys, n);
    }
    HoldsAfter(s, s', run);
    assert forall n :: !Holds(s', run, n);
    assert forall n :: Holds(s, run, n) <==> n in added;
    ReleaseKeepsPaths(vols, s, run);
  }

  lemma ReleaseKeepsPaths(vols: Volumes, s: System, run: RunId)
    requires PathsMatch(s) && run in s.runs && s.runs[run].Holding?
    ensures PathsMatch(Apply(vols, s, Release(run)))
  {
    var s' := Apply(vols, s, Release(run));
    OwnsAfter(s, s', run);
    assert forall k :: !Owns(s', run, k);
    assert forall k :: Owns(s, run, k) <==> k in s.runs[run].req.keys;
    forall k | k in s'.mgr.paths && k !in s'.mgr.pinned
      ensures exists r :: Owns(s', r, k)
    {
      var r :| Owns(s, r, k);
      assert Owns(s', r, k);
    }
  }

  lemma SmallStepKeepsInv(vols: Volumes, s: System, step: Step)
    requires Inv(vols, s) && Enabled(vols, s, step)
    requires step.GiveUp? || step.Pin? || step.Gate? || step.ReleaseAgain?
    ensures Inv(vols, Apply(vols, s, step))
  {
    var s' := Apply(vols, s, step);
    assert forall r, n :: Holds(s', r, n) <==> Holds(s, r, n);
    assert forall r, k :: Owns(s', r, k) <==> Owns(s, r, k);
    forall r
      ensures Free(vols, s'.mgr, r) == Free(vols, s.mgr, r)
    {
      assert forall n :: HoldersOf(s'.mgr, n) == HoldersOf(s.mgr, n);
    }
    if step.Pin? {
      assert Owns(s, step.run, step.key);
    }
  }

  lemma StepKeepsInv(vols: Volumes, s: System, step: Step)
    requires Inv(vols, s) && Enabled(vols, s, step)
    ensures Inv(vols, Apply(vols, s, step))
  {
    match step
    case Call(run, req) => AttemptKeepsInv(vols, s, run, req);
    case Wake(run) => AttemptKeepsInv(vols, s, run, s.runs[run].req);
    case Release(run) => ReleaseKeepsInv(vols, s, run);
    case _ => SmallStepKeepsInv(vols, s, step);
  }

  /** Every reachable state satisfies the invariant. */
  lemma {:induction false} ReachableInv(vols: Volumes, steps: seq<Step>)
    requires After(vols, steps).Some?
    ensures Inv(vols, After(vols, steps).value)
    decreases |steps|
  {
    if steps != [] {
      ReachableInv(vols, steps[..|steps| - 1]);
      StepKeepsInv(vols, After(vols, steps[..|steps| - 1]).value, steps[|steps| - 1]);
    }
  }

  // ---------------------------------------------------------------------------------------
  // What it means for runs
  // ---------------------------------------------------------------------------------------

  /** run waits for other: other holds a volume run lists, or a path run needs. */
  ghost predicate WaitsFor(s: System, run: RunId, other: RunId) {
    && run in s.runs && s.runs[run].Parked?
    && ((exists n :: n in Names(s.runs[run].req.declared) && other in HoldersOf(s.mgr, n))
        || (exists key :: key in s.runs[run].req.keys && Owns(s, other, key)))
  }

  /** Exclusion: one holder per exclusive volume, one owner per path; and a run that waits holds
      nothing, so nobody ever waits for a run that waits. */
  lemma Exclusion(vols: Volumes, s: System, steps: seq<Step>)
    requires After(vols, steps) == Some(s)
    ensures forall n :: n in vols && vols[n].Exclusive? ==> |HoldersOf(s.mgr, n)| <= 1
    ensures forall key, run, other :: Owns(s, run, key) && Owns(s, other, key) ==> run == other
    ensures forall run, other, third :: WaitsFor(s, run, other) ==> !WaitsFor(s, other, third)
  {
    ReachableInv(vols, steps);
    forall n | n in vols && vols[n].Exclusive?
      ensures |HoldersOf(s.mgr, n)| <= 1
    {
      var h := HoldersOf(s.mgr, n);
      if h != {} {
        var r :| r in h;
        assert forall other :: other in h ==> Holds(s, other, n);
        assert h == {r};
      }
    }
    forall run, other | WaitsFor(s, run, other)
      ensures other in s.runs && s.runs[other].Holding?
    {
      if n :| n in Names(s.runs[run].req.declared) && other in HoldersOf(s.mgr, n) {
        assert Holds(s, other, n);
      }
    }
  }

  ghost predicate Linked(s: System, cycle: seq<RunId>, i: nat)
    requires i < |cycle|
  {
    WaitsFor(s, cycle[i], cycle[if i + 1 < |cycle| then i + 1 else 0])
  }

  /** No set of runs waits in a circle. */
  lemma NoWaitCycle(vols: Volumes, s: System, steps: seq<Step>, cycle: seq<RunId>)
    requires After(vols, steps) == Some(s) && cycle != []
    ensures exists i :: 0 <= i < |cycle| && !Linked(s, cycle, i)
  {
    Exclusion(vols, s, steps);
    var next := if 1 < |cycle| then 1 else 0;
    if Linked(s, cycle, 0) {
      assert !Linked(s, cycle, next);
    }
  }

  /** No lost wake-up, and no wait without cause: a run parked on the current channel by a scan that was
      not abandoned, or with a request that is not too large, is waiting for a run that is holding, or
      for a pinned path. */
  lemma EveryWaitHasACause(vols: Volumes, s: System, steps: seq<Step>, run: RunId)
    requires After(vols, steps) == Some(s) && run in s.runs && s.runs[run].Parked?
    requires s.runs[run].channel == s.mgr.changed && (!s.runs[run].abandoned || !TooLarge(s.runs[run].req))
    ensures Blocked(vols, s.mgr, run, s.runs[run].req)
    ensures !(s.runs[run].req.keys !! s.mgr.pinned) || exists other :: WaitsFor(s, run, other)
  {
    ReachableInv(vols, steps);
    var req := s.runs[run].req;
    if key :| key in req.keys && key in s.mgr.paths {
      if key !in s.mgr.pinned {
        var other :| Owns(s, other, key);
        assert WaitsFor(s, run, other);
      }
    } else if n, other :| n in Names(req.declared) && other in HoldersOf(s.mgr, n) {
      assert WaitsFor(s, run, other);
    } else {
      assert forall n :: n in Names(req.declared) ==> HoldersOf(s.mgr, n) == {};
      AllFreeNeverWaits(req.declared, Free(vols, s.mgr, run));
      assert false;
    }
  }

  /** Once no run holds anything, the manager holds nothing but the pinned paths, and every run
      still parked on the current channel wants one of those or is too large and had its search
      abandoned. */
  lemma AllReleased(vols: Volumes, s: System, steps: seq<Step>)
    requires After(vols, steps) == Some(s)
    requires forall run :: run in s.runs ==> !s.runs[run].Holding?
    ensures s.mgr.holders == map[] && s.mgr.paths == s.mgr.pinned
    ensures forall run :: run in s.runs && s.runs[run].Parked? && s.runs[run].channel == s.mgr.changed
              ==> (s.runs[run].abandoned && TooLarge(s.runs[run].req)) || !(s.runs[run].req.keys !! s.mgr.pinned)
  {
    ReachableInv(vols, steps);
    forall n, r
      ensures r !in HoldersOf(s.mgr, n)
    {
      assert !Holds(s, r, n);
    }
    assert forall n :: HoldersOf(s.mgr, n) == {};
    assert forall n :: n in s.mgr.holders.Keys ==> s.mgr.holders[n] == HoldersOf(s.mgr, n);
    assert s.mgr.holders.Keys == {};
    forall run | run in s.runs && s.runs[run].Parked? && s.runs[run].channel == s.mgr.changed && !s.runs[run].abandoned
      ensures !(s.runs[run].req.keys !! s.mgr.pinned)
    {
      EveryWaitHasACause(vols, s, steps, run);
    }
  }

  /** A pinned path outlives the run that reserved it: it stays reserved through whatever happens
      later, so it is never given to a run again. */
  lemma {:induction false} PinnedStaysReserved(vols: Volumes, steps: seq<Step>, more: seq<Step>, key: MountPath)
    requires After(vols, steps).Some? && After(vols, steps + more).Some?
    requires key in After(vols, steps).value.mgr.pinned
    ensures var s := After(vols, steps + more).value;
            key in s.mgr.pinned && key in s.mgr.paths && (forall run :: run !in After(vols, steps).value.runs ==> !Owns(s, run, key))
    decreases |more|
  {
    ReachableInv(vols, steps + more);
    if more == [] {
      assert steps + more == steps;
    } else {
      var front, step := more[..|more| - 1], more[|more| - 1];
      assert (steps + more)[..|steps + more| - 1] == steps + front && (steps + more)[|steps + more| - 1] == step;
      PinnedStaysReserved(vols, steps, front, key);
      PinnedStaysOneStep(vols, After(vols, steps + front).value, step, key);
    }
  }

  lemma PinnedStaysOneStep(vols: Volumes, s: System, step: Step, key: MountPath)
    requires Enabled(vols, s, step) && key in s.mgr.pinned && key in s.mgr.paths
    ensures var s' := Apply(vols, s, step);
            key in s'.mgr.pinned && forall run :: Owns(s', run, key) ==> Owns(s, run, key)
  {
    match step
    case Call(run, req) => AttemptTakesNoReservedPath(vols, s, run, req, key);
    case Wake(run) => AttemptTakesNoReservedPath(vols, s, run, s.runs[run].req, key);
    case _ =>
  }

  lemma AttemptTakesNoReservedPath(vols: Volumes, s: System, run: RunId, req: Request, key: MountPath)
    requires WellFormed(vols, req) && key in s.mgr.paths
    ensures var s' := Attempt(vols, s, run, req);
            s'.mgr.pinned == s.mgr.pinned && forall other :: Owns(s', other, key) ==> Owns(s, other, key)
  {
    ScanExact(vols, s.mgr, run, req);
  }
}
