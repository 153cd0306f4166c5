/** The VolumeManager of internal/agent/volumes.go: who holds which volume and which absolute
    mount path, and the steps that change it. Each method here is one critical section under the
    manager's mutex; VolumeProtocol composes them into runs.
  */
module VolumeManagement {
  import opened Common
  import opened Sorting
  import opened VolumeSearch

  type RunId = string
  type MountPath = string

  datatype Mode = Exclusive | Shared
  type Volumes = map<Name, Mode>

  /** What a run asks for: its entries, narrowed to declared candidates, and the cleaned absolute
      paths it links. */
  datatype Request = Request(declared: Entries, keys: set<MountPath>)

  ghost predicate WellFormed(vols: Volumes, req: Request) {
    EveryEntryHasACandidate(req.declared) && Names(req.declared) <= vols.Keys
  }

  /** The manager's fields. `changed` numbers the broadcast channel: closing it and making a new
      one is adding 1, so a waiter parked on channel c has been woken when c != changed. */
  datatype State = State(
    holders: map<Name, set<RunId>>,
    paths: set<MountPath>,
    pinned: set<MountPath>,
    gated: set<Name>,
    changed: nat)

  const INITIAL := State(map[], {}, {}, {}, 0)

  function HoldersOf(st: State, n: Name): set<RunId> {
    if n in st.holders then st.holders[n] else {}
  }

  /** The volumes `free` says yes to for this run. */
  function Free(vols: Volumes, st: State, run: RunId): set<Name> {
    set n | n in vols && (run in HoldersOf(st, n) || vols[n].Shared? || HoldersOf(st, n) == {})
  }

  /** The candidates of one entry that this agent declares, in the order listed. */
  function DeclaredOf(vols: Volumes, candidates: seq<Name>): seq<Name> {
    if candidates == [] then []
    else
      var last := candidates[|candidates| - 1];
      DeclaredOf(vols, candidates[..|candidates| - 1]) + if last in vols then [last] else []
  }

  /** Narrowing keeps the order: it goes through the list piece by piece, and keeps of each name it or
      nothing. */
  lemma {:induction false} DeclaredInOrder(vols: Volumes, a: seq<Name>, b: seq<Name>)
    ensures DeclaredOf(vols, a + b) == DeclaredOf(vols, a) + DeclaredOf(vols, b)
    ensures |b| == 1 ==> DeclaredOf(vols, b) == if b[0] in vols then b else []
  {
    if b == [] {
      assert a + b == a;
    } else {
      var front, last := b[..|b| - 1], b[|b| - 1];
      DeclaredInOrder(vols, a, front);
      assert (a + b)[..|a + b| - 1] == a + front && (a + b)[|a + b| - 1] == last;
    }
  }

  /** Nothing the request could be given now: a path is reserved, or no assignment is admissible. */
  ghost predicate Blocked(vols: Volumes, st: State, run: RunId, req: Request) {
    !(req.keys !! st.paths) || NoneAdmissible(req.declared, Free(vols, st, run))
  }

  datatype Outcome =
    | Acquired(chosen: seq<Name>)
    | Wait(channel: nat, abandoned: bool)

  /** assignLocked, and what ReserveSet makes of its answer. */
  function Scan(vols: Volumes, st: State, run: RunId, req: Request): Outcome
    requires forall i :: 0 <= i < |req.declared| ==> req.declared[i] != []
  {
    if !(req.keys !! st.paths) then Wait(st.changed, false)
    else
      var r := AvoidingChoice(req.declared, Free(vols, st, run), st.gated);
      if r.assignment.Some? then Acquired(r.assignment.value) else Wait(st.changed, r.abandoned)
  }

  /** The volumes an acquisition adds to what the run holds. */
  function Added(st: State, run: RunId, chosen: seq<Name>): set<Name> {
    set n | n in chosen && run !in HoldersOf(st, n)
  }

  /** Taking everything at once. */
  function Grant(st: State, run: RunId, added: set<Name>, keys: set<MountPath>): State {
    st.(holders := map n | n in st.holders.Keys + added ::
          if n in added then HoldersOf(st, n) + {run} else HoldersOf(st, n),
        paths := st.paths + keys)
  }

  /** Giving everything back, except pinned paths, and waking every waiter. */
  function Drop(st: State, run: RunId, added: set<Name>, keys: set<MountPath>): State {
    st.(holders := map n | n in st.holders && !(n in added && st.holders[n] <= {run}) ::
          if n in added then st.holders[n] - {run} else st.holders[n],
        paths := st.paths - (keys - st.pinned),
        changed := st.changed + 1)
  }

  /** Drop, one volume at a time. */
  function DropOne(holders: map<Name, set<RunId>>, n: Name, run: RunId): map<Name, set<RunId>> {
    if n !in holders then holders
    else if holders[n] <= {run} then holders - {n}
    else holders[n := holders[n] - {run}]
  }

  lemma DropOneMore(st: State, run: RunId, done: set<Name>, n: Name)
    requires n !in done
    ensures Drop(st, run, done + {n}, {}).holders == DropOne(Drop(st, run, done, {}).holders, n, run)
  {
  }

  /** The request has so many candidates that a search for it may be abandoned. */
  predicate TooLarge(req: Request) {
    Nodes(req.declared, 0) > 20_000
  }

  /** A wait that no pass abandoned means the request is blocked, and one is abandoned only for a
      request that is too large and needs no reserved path; an acquisition takes only free volumes and
      unreserved paths. */
  lemma ScanExact(vols: Volumes, st: State, run: RunId, req: Request)
    requires EveryEntryHasACandidate(req.declared)
    ensures match Scan(vols, st, run, req)
            case Wait(c, abandoned) =>
              && c == st.changed && (!abandoned ==> Blocked(vols, st, run, req))
              && (abandoned ==> TooLarge(req) && req.keys !! st.paths)
            case Acquired(chosen) =>
              && req.keys !! st.paths
              && Admissible(req.declared, Free(vols, st, run), chosen)
              && (forall n :: n in chosen ==> n in Names(req.declared) && n in Free(vols, st, run))
  {
    AvoidingExact(req.declared, Free(vols, st, run), st.gated);
    match Scan(vols, st, run, req)
    case Wait(_, _) =>
    case Acquired(chosen) =>
      AdmissibleUsesFree(req.declared, Free(vols, st, run), chosen);
  }

  /** A gated volume is taken only if nothing admissible does without gated ones, or the request is too
      large to tell. */
  lemma GatedOnlyAsLastResort(vols: Volumes, st: State, run: RunId, req: Request)
    requires EveryEntryHasACandidate(req.declared)
    ensures match Scan(vols, st, run, req)
            case Wait(_, _) => true
            case Acquired(chosen) =>
              (exists n :: n in chosen && n in st.gated) ==>
                NoneAdmissible(req.declared, Free(vols, st, run) - st.gated) || TooLarge(req)
  {
    match Scan(vols, st, run, req)
    case Wait(_, _) =>
    case Acquired(chosen) =>
      ScanExact(vols, st, run, req);
      AdmissibleUsesFree(req.declared, Free(vols, st, run), chosen);
      if n :| n in chosen && n in st.gated {
        var i :| 0 <= i < |chosen| && chosen[i] == n;
        AvoidedOnlyAsLastResort(req.declared, Free(vols, st, run), st.gated, i);
      }
  }

  /** A run is never blocked by itself: with its paths free, and every volume it lists shared, unheld or
      held by it alone, something is admissible, and a request that is not too large is granted. */
  lemma OwnVolumesDoNotBlock(vols: Volumes, st: State, run: RunId, req: Request)
    requires WellFormed(vols, req) && req.keys !! st.paths
    requires forall n :: n in Names(req.declared) ==> vols[n].Shared? || HoldersOf(st, n) <= {run}
    ensures !Blocked(vols, st, run, req)
    ensures !TooLarge(req) ==> Scan(vols, st, run, req).Acquired?
  {
    forall n | n in Names(req.declared)
      ensures n in Free(vols, st, run)
    {
      if HoldersOf(st, n) != {} && !vols[n].Shared? {
        var holder :| holder in HoldersOf(st, n);
        assert holder == run;
      }
    }
    AllFreeNeverWaits(req.declared, Free(vols, st, run));
    ScanExact(vols, st, run, req);
  }

  /** Releasing undoes acquiring: what the run held before it still holds, nothing else of it stays, and
      every waiter is woken. */
  lemma ReleaseUndoesAcquire(st: State, run: RunId, chosen: seq<Name>, keys: set<MountPath>)
    requires keys !! st.paths && forall n :: n in st.holders ==> st.holders[n] != {}
    ensures var added := Added(st, run, chosen);
            var held := Grant(st, run, added, keys);
            && (forall n :: n in chosen ==> run in HoldersOf(held, n)) && keys <= held.paths
            && Drop(held, run, added, keys) == st.(paths := st.paths + keys * st.pinned, changed := st.changed + 1)
  {
    var added := Added(st, run, chosen);
    var held := Grant(st, run, added, keys);
    var after := Drop(held, run, added, keys);
    forall n
      ensures n in after.holders <==> n in st.holders
      ensures n in st.holders ==> after.holders[n] == st.holders[n]
    {
      if n in added {
        assert held.holders[n] == HoldersOf(st, n) + {run};
      }
    }
    assert after.holders == st.holders;
  }

  /** The once-only release func ReserveSet returns. */
  class Reservation {
    const run: RunId
    const added: set<Name>
    const keys: set<MountPath>
    var done: bool

    constructor (run: RunId, added: set<Name>, keys: set<MountPath>)
      ensures this.run == run && this.added == added && this.keys == keys && !done
    {
      this.run, this.added, this.keys, done := run, added, keys, false;
    }
  }

  class VolumeManager {
    const vols: Volumes
    var holders: map<Name, set<RunId>>
    var paths: set<MountPath>
    var pinned: set<MountPath>
    var gated: set<Name>
    var changed: nat

    constructor (vols: Volumes)
      ensures this.vols == vols && Snapshot() == INITIAL
    {
      this.vols := vols;
      holders, paths, pinned, gated, changed := map[], {}, {}, {}, 0;
    }

    ghost function Snapshot(): State
      reads this
    {
      State(holders, paths, pinned, gated, changed)
    }

    /** The checks ReserveSet makes before it scans: undeclared candidates are dropped, and an
        entry with none left is an error, not a wait. */
    method Prepare(runID: RunId, volumeSets: Entries, keys: set<MountPath>) returns (r: Result<Request>)
      ensures r.Ok? <==> runID != "" && forall i :: 0 <= i < |volumeSets| ==> !(ToSet(volumeSets[i]) !! vols.Keys)
      ensures r.Ok? ==> WellFormed(vols, r.value) && r.value.keys == keys && |r.value.declared| == |volumeSets|
      ensures r.Ok? ==> forall i :: 0 <= i < |volumeSets| ==> r.value.declared[i] == DeclaredOf(vols, volumeSets[i])
    {
      if runID == "" {
        return Err("run ID is required");
      }
      var declared: Entries := [];
      for i := 0 to |volumeSets|
        invariant |declared| == i
        invariant forall j :: 0 <= j < i ==> ToSet(declared[j]) == ToSet(volumeSets[j]) * vols.Keys
        invariant forall j :: 0 <= j < i ==> declared[j] == DeclaredOf(vols, volumeSets[j])
        invariant forall j :: 0 <= j < i ==> declared[j] != [] && declared[j][0] in ToSet(declared[j])
      {
        var kept := Declared(volumeSets[i]);
        if |kept| == 0 {
          return Err("this agent declares none of the entry's volumes");
        }
        assert kept[0] in ToSet(kept);
        declared := declared + [kept];
      }
      r := Ok(Request(declared, keys));
      forall n | n in Names(declared)
        ensures n in vols
      {
        var i, k :| 0 <= i < |declared| && 0 <= k < |declared[i]| && declared[i][k] == n;
        assert n in ToSet(declared[i]);
      }
    }

    /** The loop over one entry's candidates. */
    method Declared(candidates: seq<Name>) returns (kept: seq<Name>)
      ensures kept == DeclaredOf(vols, candidates)
      ensures ToSet(kept) == ToSet(candidates) * vols.Keys
      ensures kept == [] ==> ToSet(candidates) !! vols.Keys
    {
      kept := [];
      for k := 0 to |candidates|
        invariant ToSet(kept) == ToSet(candidates[..k]) * vols.Keys
        invariant kept == DeclaredOf(vols, candidates[..k])
      {
        assert candidates[..k + 1][..k] == candidates[..k];
        ToSetPrefix(candidates, k);
        if candidates[k] in vols {
          assert ToSet(kept + [candidates[k]]) == ToSet(kept) + {candidates[k]};
          kept := kept + [candidates[k]];
        }
      }
      assert candidates[..|candidates|] == candidates;
      assert kept == [] ==> forall n :: n in ToSet(candidates) && n in vols.Keys ==> n in ToSet(kept);
    }

    /** One turn of the ReserveSet loop: take the whole request, or take nothing and say on which
        channel to wait. */
    method TryReserve(run: RunId, req: Request) returns (o: Outcome, reservation: Reservation?)
      requires WellFormed(vols, req)
      modifies this
      ensures o == old(Scan(vols, Snapshot(), run, req))
      ensures o.Wait? ==> Snapshot() == old(Snapshot()) && reservation == null
      ensures o.Acquired? ==>
                && reservation != null && fresh(reservation) && !reservation.done
                && reservation.run == run && reservation.keys == req.keys
                && reservation.added == old(Added(Snapshot(), run, o.chosen))
                && Snapshot() == old(Grant(Snapshot(), run, Added(Snapshot(), run, o.chosen), req.keys))
    {
      reservation := null;
      if !(req.keys !! paths) {
        return Wait(changed, false), null;
      }
      var free := set n | n in vols && ((n in holders && run in holders[n]) || vols[n].Shared? || n !in holders || holders[n] == {});
      assert free == Free(vols, Snapshot(), run);
      var r := ChooseVolumesAvoiding(req.declared, free, gated);
      if r.assignment.None? {
        return Wait(changed, r.abandoned), null;
      }
      var chosen := r.assignment.value;
      var added := TakeVolumes(run, chosen);
      paths := paths + req.keys;
      reservation := new Reservation(run, added, req.keys);
      o := Acquired(chosen);
    }

    method TakeVolumes(run: RunId, chosen: seq<Name>) returns (added: set<Name>)
      modifies this`holders
      ensures added == old(Added(Snapshot(), run, chosen))
      ensures holders == old(Grant(Snapshot(), run, Added(Snapshot(), run, chosen), {}).holders)
    {
      added := {};
      ghost var st := Snapshot();
      for i := 0 to |chosen|
        invariant added == Added(st, run, chosen[..i])
        invariant holders == Grant(st, run, added, {}).holders
      {
        var n := chosen[i];
        ToSetPrefix(chosen, i);
        if !(n in holders && run in holders[n]) {
          holders := holders[n := (if n in holders then holders[n] else {}) + {run}];
          added := added + {n};
        }
      }
      assert chosen[..|chosen|] == chosen;
    }

    /** The release func: the first call gives everything back and wakes every waiter; any later
        call changes nothing. */
    method Release(r: Reservation)
      modifies this, r
      ensures r.done
      ensures Snapshot() == if old(r.done) then old(Snapshot()) else old(Drop(Snapshot(), r.run, r.added, r.keys))
    {
      if r.done {
        return;
      }
      r.done := true;
      ghost var st := Snapshot();
      var left := r.added;
      while left != {}
        invariant left <= r.added && r.done
        invariant holders == Drop(st, r.run, r.added - left, {}).holders
        invariant paths == st.paths && pinned == st.pinned && gated == st.gated && changed == st.changed
      {
        var n :| n in left;
        DropOneMore(st, r.run, r.added - left, n);
        DropHolder(n, r.run);
        left := left - {n};
        assert r.added - left == (r.added - (left + {n})) + {n};
      }
      assert r.added - {} == r.added;
      paths := paths - (r.keys - pinned);
      changed := changed + 1;
    }

    /** Takes run off the volume's holders, and the volume off the table with its last holder. */
    method DropHolder(n: Name, run: RunId)
      modifies this`holders
      ensures holders == DropOne(old(holders), n, run)
    {
      if n in holders {
        holders := holders[n := holders[n] - {run}];
        if holders[n] == {} {
          holders := holders - {n};
        }
      }
    }

    /** A link on this path could not be removed: its reservation outlives the run. */
    method PinPath(key: MountPath)
      modifies this`pinned
      ensures pinned == old(pinned) + {key}
    {
      pinned := pinned + {key};
    }

    method SetGated(names: set<Name>)
      modifies this`gated
      ensures gated == names
    {
      gated := names;
    }

    /** The claim-time report: held exclusive volumes, then reserved paths, each part sorted. A
        request that names nothing reported busy is never blocked, for any run. */
    method Busy() returns (busy: seq<string>)
      ensures exists k :: 0 <= k <= |busy| && Reports(busy[..k], HeldExclusive()) && Reports(busy[k..], paths)
      ensures forall n :: n in busy <==> n in paths || (n in vols && vols[n].Exclusive? && HoldersOf(Snapshot(), n) != {})
      ensures forall run, req :: WellFormed(vols, req) && (forall n :: n in busy ==> n !in Names(req.declared) && n !in req.keys)
                ==> !Blocked(vols, Snapshot(), run, req)
    {
      var volumes := SortedElements(HeldExclusive());
      var reserved := SortedElements(paths);
      busy := volumes + reserved;
      assert busy[..|volumes|] == volumes && busy[|volumes|..] == reserved;
      forall run, req | WellFormed(vols, req) && forall n :: n in busy ==> n !in Names(req.declared) && n !in req.keys
        ensures !Blocked(vols, Snapshot(), run, req)
      {
        UnreportedIsFree(run, req);
      }
    }

    function HeldExclusive(): set<Name>
      reads this
    {
      set n | n in vols && vols[n].Exclusive? && n in holders && holders[n] != {}
    }

    lemma UnreportedIsFree(run: RunId, req: Request)
      requires WellFormed(vols, req) && HeldExclusive() !! Names(req.declared) && paths !! req.keys
      ensures !Blocked(vols, Snapshot(), run, req)
    {
      AllFreeNeverWaits(req.declared, Free(vols, Snapshot(), run));
    }
  }

  /** The elements of a set, sorted, each once. */
  ghost predicate Reports(xs: seq<string>, s: set<string>) {
    Ascending(xs) && forall n :: n in xs <==> n in s
  }

  /** Gating is a preference: whichever volumes are gated, a request that would be granted with one
      set of gated volumes is granted with any other, unless it is too large and that search is
      abandoned. */
  lemma GatingNeverBlocks(vols: Volumes, st: State, run: RunId, req: Request, gated: set<Name>)
    requires EveryEntryHasACandidate(req.declared) && Scan(vols, st, run, req).Acquired?
    ensures match Scan(vols, st.(gated := gated), run, req)
            case Wait(_, abandoned) => abandoned && TooLarge(req)
            case Acquired(chosen) => Admissible(req.declared, Free(vols, st, run), chosen)
  {
    ScanExact(vols, st, run, req);
    ScanExact(vols, st.(gated := gated), run, req);
    assert Free(vols, st.(gated := gated), run) == Free(vols, st, run);
  }
}
