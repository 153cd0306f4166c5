/** containerPathOf (internal/agent/backend_host.go), which maps a host path back to the container
    path it was resolved from, and when it does.
  */
module ContainerPaths {
  import opened Common
  import opened VolumePaths
  import opened MountMapping

  /** The references keyed by host directory. */
  function ByHost(refs: seq<Ref>): seq<Mount> {
    seq(|refs|, i requires 0 <= i < |refs| => Mount(refs[i].rel, refs[i].host))
  }

  /** What containerPathOf answers: the deepest volume that holds the host path, else the workspace. */
  function ContainerPath(root: Path, workDir: Path, refs: seq<Ref>, host: Path): Option<Path> {
    match Lookup(ByHost(refs), host, false)
    case Some(hit) => Some(root + hit.host)
    case None => if workDir <= host then Some(root + host[|workDir|..]) else None
  }

  method ContainerPathOf(root: Path, workDir: Path, refs: seq<Ref>, host: Path) returns (r: Option<Path>)
    ensures r == ContainerPath(root, workDir, refs, host)
  {
    var best: Option<Ref> := None;
    for i := 0 to |refs|
      invariant best.Some? ==> best.value.host <= host
      invariant Lookup(ByHost(refs[..i]), host, false) ==
                if best.None? then None else Some(Hit(|best.value.host|, best.value.rel + host[|best.value.host|..]))
    {
      assert ByHost(refs[..i + 1])[..i] == ByHost(refs[..i]);
      var v := refs[i];
      if v.host <= host && (best.None? || |v.host| > |best.value.host|) {
        best := Some(v);
      }
    }
    assert refs[..|refs|] == refs;
    if best.Some? {
      return Some(root + (best.value.rel + host[|best.value.host|..]));
    }
    r := if workDir <= host then Some(root + host[|workDir|..]) else None;
  }

  /** Directories that are not the same do not overlap, the work directory included. */
  ghost predicate Apart(workDir: Path, refs: seq<Ref>) {
    && (forall i :: 0 <= i < |refs| ==> refs[i].host == workDir || !Overlap(refs[i].host, workDir))
    && (forall i, j :: 0 <= i < j < |refs| ==> refs[i].host == refs[j].host || !Overlap(refs[i].host, refs[j].host))
  }

  /** Every reference is strictly inside the workspace, at a place of its own. */
  ghost predicate OwnPlaces(refs: seq<Ref>) {
    && (forall i :: 0 <= i < |refs| ==> refs[i].rel != [])
    && (forall i, j :: 0 <= i < j < |refs| ==> refs[i].rel != refs[j].rel)
  }

  ghost predicate NoHostTwice(refs: seq<Ref>) {
    forall i, j :: 0 <= i < j < |refs| ==> refs[i].host != refs[j].host
  }

  ghost predicate HasHost(refs: seq<Ref>, host: Path) {
    exists k :: 0 <= k < |refs| && refs[k].host == host
  }

  ghost predicate GoesBack(root: Path, workDir: Path, refs: seq<Ref>, rel: Path) {
    ContainerPath(root, workDir, refs, Resolved(workDir, refs, rel)) == Some(root + rel)
  }

  /** Of the references whose directory holds the host path, the first one is found. */
  lemma {:induction false} FirstHolder(refs: seq<Ref>, host: Path, k: nat)
    requires k < |refs| && refs[k].host <= host
    requires forall i :: 0 <= i < |refs| && refs[i].host <= host ==> refs[i].host == refs[k].host && k <= i
    ensures Lookup(ByHost(refs), host, false) == Some(Hit(|refs[k].host|, refs[k].rel + host[|refs[k].host|..]))
  {
    var front, last := refs[..|refs| - 1], |refs| - 1;
    assert ByHost(refs)[..last] == ByHost(front);
    if k == last {
      LookupDepth(ByHost(front), host, false);
      assert forall i :: 0 <= i < |front| ==> ByHost(front)[i].at == refs[i].host;
      assert Lookup(ByHost(front), host, false).None?;
    } else {
      assert forall i :: 0 <= i < |front| ==> front[i] == refs[i];
      FirstHolder(front, host, k);
    }
  }

  /** The first reference to the same directory. */
  lemma {:induction false} FirstWith(refs: seq<Ref>, i: nat) returns (first: nat)
    requires i < |refs|
    ensures first <= i && refs[first].host == refs[i].host
    ensures forall k :: 0 <= k < first ==> refs[k].host != refs[first].host
  {
    if k :| 0 <= k < i && refs[k].host == refs[i].host {
      first := FirstWith(refs, k);
    } else {
      first := i;
    }
  }

  /** A resolved path lies in the directory of the reference it was resolved through. */
  lemma ResolvedThrough(workDir: Path, refs: seq<Ref>, rel: Path) returns (k: int)
    ensures -1 <= k < |refs|
    ensures k == -1 ==> Resolved(workDir, refs, rel) == workDir + rel
    ensures k >= 0 ==> refs[k].rel <= rel && Resolved(workDir, refs, rel) == refs[k].host + rel[|refs[k].rel|..]
  {
    k := ResolvedIndex(refs, rel);
  }

  lemma {:induction false} ResolvedIndex(refs: seq<Ref>, rel: Path) returns (k: int)
    ensures -1 <= k < |refs|
    ensures k == -1 ==> Lookup(AsMounts(refs), rel, false).None?
    ensures k >= 0 ==> refs[k].rel <= rel
                       && Lookup(AsMounts(refs), rel, false) == Some(Hit(|refs[k].rel|, refs[k].host + rel[|refs[k].rel|..]))
  {
    if refs == [] {
      return -1;
    }
    var front, last := refs[..|refs| - 1], |refs| - 1;
    assert AsMounts(refs)[..last] == AsMounts(front);
    k := ResolvedIndex(front, rel);
    var best := Lookup(AsMounts(front), rel, false);
    if refs[last].rel <= rel && (best.None? || |refs[last].rel| > best.value.depth) {
      k := last;
    }
  }

  lemma GoesBackWhenNoHostTwice(root: Path, workDir: Path, refs: seq<Ref>, rel: Path)
    requires Apart(workDir, refs) && NoHostTwice(refs) && !HasHost(refs, workDir)
    ensures GoesBack(root, workDir, refs, rel)
  {
    var k := ResolvedThrough(workDir, refs, rel);
    var host := Resolved(workDir, refs, rel);
    if k == -1 {
      OutsideVolumes(workDir, refs, host);
      assert host[|workDir|..] == rel;
    } else {
      forall i | 0 <= i < |refs| && refs[i].host <= host
        ensures i == k
      {
        Comparable(refs[i].host, refs[k].host, host);
      }
      FirstHolder(refs, host, k);
      assert host[|refs[k].host|..] == rel[|refs[k].rel|..];
      assert refs[k].rel + rel[|refs[k].rel|..] == rel;
    }
  }

  lemma OutsideVolumes(workDir: Path, refs: seq<Ref>, host: Path)
    requires Apart(workDir, refs) && !HasHost(refs, workDir) && workDir <= host
    ensures Lookup(ByHost(refs), host, false).None?
  {
    LookupDepth(ByHost(refs), host, false);
    forall i | 0 <= i < |refs|
      ensures !(ByHost(refs)[i].at <= host)
    {
      if refs[i].host <= host {
        Comparable(refs[i].host, workDir, host);
      }
    }
  }

  lemma Comparable(p: Path, q: Path, r: Path)
    requires p <= r && q <= r
    ensures Overlap(p, q)
  {
  }

  /** A volume mounted twice is not mapped back from its second place. */
  lemma SecondPlaceIsLost(root: Path, workDir: Path, refs: seq<Ref>, i: nat, j: nat)
    requires Apart(workDir, refs) && OwnPlaces(refs)
    requires i < j < |refs| && refs[i].host == refs[j].host
    requires forall k :: 0 <= k < i ==> refs[k].host != refs[i].host
    ensures !GoesBack(root, workDir, refs, refs[j].rel)
  {
    var rel := refs[j].rel;
    var k := ResolvedIndex(refs, rel);
    LookupDepth(AsMounts(refs), rel, false);
    assert AsMounts(refs)[j].at == rel;
    assert k >= 0 && |refs[k].rel| == |rel|;
    assert refs[k].rel == rel[..|rel|] == rel;
    assert k == j;
    var host := refs[j].host;
    assert rel[|rel|..] == [] && host + [] == host;
    forall m | 0 <= m < |refs| && refs[m].host <= host
      ensures refs[m].host == refs[i].host && i <= m
    {
    }
    FirstHolder(refs, host, i);
    assert host[|host|..] == [] && refs[i].rel + [] == refs[i].rel;
    assert ContainerPath(root, workDir, refs, host) == Some(root + refs[i].rel);
    assert (root + refs[i].rel)[|root|..] == refs[i].rel && (root + rel)[|root|..] == rel;
  }

  /** A work directory that is mounted again inside the workspace is mapped into that mount. */
  lemma WorkDirIsLost(root: Path, workDir: Path, refs: seq<Ref>)
    requires Apart(workDir, refs) && OwnPlaces(refs) && HasHost(refs, workDir)
    ensures !GoesBack(root, workDir, refs, [])
  {
    var j :| 0 <= j < |refs| && refs[j].host == workDir;
    var first := FirstWith(refs, j);
    var k := ResolvedThrough(workDir, refs, []);
    assert k == -1 && workDir + [] == workDir;
    forall m | 0 <= m < |refs| && refs[m].host <= workDir
      ensures refs[m].host == refs[first].host && first <= m
    {
    }
    FirstHolder(refs, workDir, first);
    assert workDir[|workDir|..] == [] && refs[first].rel + [] == refs[first].rel;
    assert |root + refs[first].rel| > |root + []|;
  }

  lemma ReferencesInvert(root: Path, workDir: Path, refs: seq<Ref>)
    requires Apart(workDir, refs) && OwnPlaces(refs)
    ensures (forall rel :: GoesBack(root, workDir, refs, rel)) <==> NoHostTwice(refs) && !HasHost(refs, workDir)
  {
    if HasHost(refs, workDir) {
      WorkDirIsLost(root, workDir, refs);
    } else if NoHostTwice(refs) {
      forall rel
        ensures GoesBack(root, workDir, refs, rel)
      {
        GoesBackWhenNoHostTwice(root, workDir, refs, rel);
      }
    } else {
      var i, j :| 0 <= i < j < |refs| && refs[i].host == refs[j].host;
      var first := FirstWith(refs, i);
      SecondPlaceIsLost(root, workDir, refs, first, j);
    }
  }

  // ---------------------------------------------------------------------------------------
  // For a claim on a configured agent
  // ---------------------------------------------------------------------------------------

  /** Every planned mount is of a configured volume. */
  ghost predicate Hosted(base: Path, cfgs: seq<VolumeConfig>, specs: seq<Spec>) {
    forall i :: 0 <= i < |specs| ==> Configured(base, cfgs, specs[i])
  }

  ghost predicate Configured(base: Path, cfgs: seq<VolumeConfig>, s: Spec) {
    exists k :: 0 <= k < |cfgs| && cfgs[k].name == s.volume && PathOf(base, cfgs[k]) == s.host
  }

  /** NewVolumeManager, then planMounts. */
  method PlanClaim(base: Path, cfgs: seq<VolumeConfig>, resolve: Path -> Option<Path>, mounts: seq<VolumeMount>)
    returns (r: Result<seq<Spec>>)
    ensures r.Ok? ==> Sound(base, cfgs) && Hosted(base, cfgs, r.value) && |r.value| == |mounts|
  {
    var ok, vols := Declare(base, cfgs, resolve);
    if !ok {
      return Err("the volume configuration is refused");
    }
    var shared := set i | 0 <= i < |cfgs| && cfgs[i].mode == "shared" :: cfgs[i].name;
    r := PlanMounts(vols, shared, mounts);
    if r.Ok? {
      forall i | 0 <= i < |r.value|
        ensures Configured(base, cfgs, r.value[i])
      {
        assert Plannable(vols, shared, mounts[i]);
        var k :| 0 <= k < |cfgs| && cfgs[k].name == mounts[i].names[0];
        assert cfgs[k].name in vols;
      }
    }
  }

  /** workspaceVolumeDir: the directory of the first volume mounted at the workspace root. */
  function RootHost(specs: seq<Spec>): Option<Path> {
    if specs == [] then None
    else
      var before, s := RootHost(specs[..|specs| - 1]), specs[|specs| - 1];
      if before.None? && IsRoot(s) then Some(s.host) else before
  }

  lemma {:induction false} RootHostIsOfARoot(specs: seq<Spec>)
    ensures match RootHost(specs)
            case None => forall i :: 0 <= i < |specs| ==> !IsRoot(specs[i])
            case Some(host) => exists i :: 0 <= i < |specs| && IsRoot(specs[i]) && specs[i].host == host
  {
    if specs != [] {
      RootHostIsOfARoot(specs[..|specs| - 1]);
    }
  }

  /** Where a claim works: in its root volume if it has one, else in a directory of its own. */
  function WorkDir(own: Path, specs: seq<Spec>): Path {
    match RootHost(specs)
    case None => own
    case Some(host) => host
  }

  /** No two mounts at the same place of the container. */
  ghost predicate PlacedApart(root: Path, specs: seq<Spec>) {
    forall i, j :: 0 <= i < j < |specs| ==> Place(root, specs[i]) != Place(root, specs[j])
  }

  lemma ValidatedPlacedApart(root: Path, specs: seq<Spec>)
    requires Validated(root, specs)
    ensures PlacedApart(root, specs)
  {
    forall i, j | 0 <= i < j < |specs|
      ensures Place(root, specs[i]) != Place(root, specs[j])
    {
      PlacesDiffer(root, specs, i, j);
    }
  }

  /** The mount is strictly inside the workspace. */
  predicate Referenced(root: Path, s: Spec) {
    root <= Place(root, s) && Place(root, s) != root
  }

  /** No volume is mounted twice at or inside the workspace. */
  ghost predicate MountedOnce(root: Path, specs: seq<Spec>) {
    forall i, j :: 0 <= i < j < |specs| && InWorkspace(root, specs[i]) && InWorkspace(root, specs[j])
      ==> specs[i].volume != specs[j].volume
  }

  predicate InWorkspace(root: Path, s: Spec) {
    IsRoot(s) || Referenced(root, s)
  }

  /** One more planned mount is one more reference, exactly if it is strictly inside. */
  lemma OneMoreRef(root: Path, specs: seq<Spec>)
    requires specs != []
    ensures var s, before := specs[|specs| - 1], Refs(root, specs[..|specs| - 1]);
            if Referenced(root, s) then Refs(root, specs) == before + [Ref(s.host, Place(root, s)[|root|..])]
            else Refs(root, specs) == before
  {
    var s := specs[|specs| - 1];
    assert !s.abs ==> (root + s.mp)[|root|..] == s.mp && root <= root + s.mp;
    assert !s.abs && s.mp == [] ==> root + s.mp == root;
    assert !s.abs && s.mp != [] ==> |root + s.mp| > |root|;
  }

  /** The mount a reference comes from. */
  lemma {:induction false} SpecOf(root: Path, specs: seq<Spec>, k: nat) returns (i: nat)
    requires k < |Refs(root, specs)|
    ensures i < |specs| && Referenced(root, specs[i])
    ensures Refs(root, specs)[k] == Ref(specs[i].host, Place(root, specs[i])[|root|..])
  {
    var front := specs[..|specs| - 1];
    OneMoreRef(root, specs);
    if k < |Refs(root, front)| {
      i := SpecOf(root, front, k);
    } else {
      i := |front|;
    }
  }

  /** The reference a mount strictly inside the workspace leads to. */
  lemma {:induction false} RefOf(root: Path, specs: seq<Spec>, i: nat) returns (k: nat)
    requires i < |specs| && Referenced(root, specs[i])
    ensures k < |Refs(root, specs)|
    ensures Refs(root, specs)[k] == Ref(specs[i].host, Place(root, specs[i])[|root|..])
  {
    var front := specs[..|specs| - 1];
    OneMoreRef(root, specs);
    if i < |front| {
      k := RefOf(root, front, i);
    } else {
      k := |Refs(root, front)|;
    }
  }

  lemma StrictlyLonger(p: Path, q: Path)
    requires p <= q && p != q
    ensures |p| < |q|
  {
    assert q[..|q|] == q;
  }

  lemma {:induction false} RefsOwnPlaces(root: Path, specs: seq<Spec>)
    requires PlacedApart(root, specs)
    ensures OwnPlaces(Refs(root, specs))
  {
    if specs != [] {
      var front, s := specs[..|specs| - 1], specs[|specs| - 1];
      RefsOwnPlaces(root, front);
      OneMoreRef(root, specs);
      if Referenced(root, s) {
        StrictlyLonger(root, Place(root, s));
        forall k | 0 <= k < |Refs(root, front)|
          ensures Refs(root, front)[k].rel != Place(root, s)[|root|..]
        {
          var i := SpecOf(root, front, k);
          if Refs(root, front)[k].rel == Place(root, s)[|root|..] {
            SameRel(root, Place(root, front[i]), Place(root, s));
          }
        }
      }
    }
  }

  lemma SameRel(root: Path, p: Path, q: Path)
    requires root <= p && root <= q && p[|root|..] == q[|root|..]
    ensures p == q
  {
    assert p == root + p[|root|..] && q == root + q[|root|..];
  }

  /** Two mounts are of the same volume exactly if they show the same directory, and otherwise their
      directories do not overlap. */
  lemma SameVolume(base: Path, cfgs: seq<VolumeConfig>, specs: seq<Spec>, i: nat, j: nat)
    requires Sound(base, cfgs) && Hosted(base, cfgs, specs) && i < |specs| && j < |specs|
    ensures OutOfReach(base, specs[i].host)
    ensures specs[i].volume == specs[j].volume <==> specs[i].host == specs[j].host
    ensures specs[i].host == specs[j].host || !Overlap(specs[i].host, specs[j].host)
  {
    assert Configured(base, cfgs, specs[i]) && Configured(base, cfgs, specs[j]);
    var a :| 0 <= a < |cfgs| && cfgs[a].name == specs[i].volume && PathOf(base, cfgs[a]) == specs[i].host;
    var b :| 0 <= b < |cfgs| && cfgs[b].name == specs[j].volume && PathOf(base, cfgs[b]) == specs[j].host;
    assert Acceptable(base, cfgs[a]);
    if a < b {
      assert !Overlap(PathOf(base, cfgs[a]), PathOf(base, cfgs[b]));
    } else if b < a {
      assert !Overlap(PathOf(base, cfgs[b]), PathOf(base, cfgs[a]));
    }
  }

  /** The checks on volume directories keep a claim's directories apart. */
  lemma ClaimApart(root: Path, base: Path, first: string, rest: Path, cfgs: seq<VolumeConfig>, specs: seq<Spec>)
    requires Sound(base, cfgs) && Hosted(base, cfgs, specs) && Managed(first)
    ensures Apart(WorkDir(base + [first] + rest, specs), Refs(root, specs))
    ensures RootHost(specs).None? ==> !HasHost(Refs(root, specs), WorkDir(base + [first] + rest, specs))
  {
    var own, refs := base + [first] + rest, Refs(root, specs);
    var workDir := WorkDir(own, specs);
    RootHostIsOfARoot(specs);
    forall k | 0 <= k < |refs|
      ensures refs[k].host == workDir || !Overlap(refs[k].host, workDir)
      ensures RootHost(specs).None? ==> refs[k].host != workDir
    {
      var i := SpecOf(root, specs, k);
      SameVolume(base, cfgs, specs, i, i);
      if RootHost(specs).None? {
        WorkspaceApartFromVolumes(base, first, rest, specs[i].host);
      } else {
        var r :| 0 <= r < |specs| && IsRoot(specs[r]) && specs[r].host == workDir;
        SameVolume(base, cfgs, specs, i, r);
      }
    }
    forall k, m | 0 <= k < m < |refs|
      ensures refs[k].host == refs[m].host || !Overlap(refs[k].host, refs[m].host)
    {
      var i := SpecOf(root, specs, k);
      var j := SpecOf(root, specs, m);
      SameVolume(base, cfgs, specs, i, j);
    }
  }

  /** Volumes mounted once lead to references to different directories, none of them the work
      directory. */
  lemma OnceIsEnough(root: Path, base: Path, first: string, rest: Path, cfgs: seq<VolumeConfig>, specs: seq<Spec>)
    requires Sound(base, cfgs) && Hosted(base, cfgs, specs) && Managed(first) && PlacedApart(root, specs)
    requires MountedOnce(root, specs)
    ensures NoHostTwice(Refs(root, specs)) && !HasHost(Refs(root, specs), WorkDir(base + [first] + rest, specs))
  {
    var workDir, refs := WorkDir(base + [first] + rest, specs), Refs(root, specs);
    forall k, m | 0 <= k < m < |refs|
      ensures refs[k].host != refs[m].host
    {
      OnceMeansDifferent(root, base, cfgs, specs, k, m);
    }
    ClaimApart(root, base, first, rest, cfgs, specs);
    forall k | 0 <= k < |refs| && RootHost(specs).Some?
      ensures refs[k].host != workDir
    {
      OnceMeansNotTheRoot(root, base, cfgs, specs, k);
    }
  }

  lemma OnceMeansDifferent(root: Path, base: Path, cfgs: seq<VolumeConfig>, specs: seq<Spec>, k: nat, m: nat)
    requires Sound(base, cfgs) && Hosted(base, cfgs, specs) && PlacedApart(root, specs) && MountedOnce(root, specs)
    requires k < m < |Refs(root, specs)|
    ensures Refs(root, specs)[k].host != Refs(root, specs)[m].host
  {
    RefsOwnPlaces(root, specs);
    var i := SpecOf(root, specs, k);
    var j := SpecOf(root, specs, m);
    assert i != j;
    SameVolume(base, cfgs, specs, i, j);
  }

  lemma OnceMeansNotTheRoot(root: Path, base: Path, cfgs: seq<VolumeConfig>, specs: seq<Spec>, k: nat)
    requires Sound(base, cfgs) && Hosted(base, cfgs, specs) && MountedOnce(root, specs)
    requires k < |Refs(root, specs)| && RootHost(specs).Some?
    ensures Refs(root, specs)[k].host != RootHost(specs).value
  {
    RootHostIsOfARoot(specs);
    var i := SpecOf(root, specs, k);
    var r :| 0 <= r < |specs| && IsRoot(specs[r]) && specs[r].host == RootHost(specs).value;
    assert Place(root, specs[r]) == root && InWorkspace(root, specs[r]) && InWorkspace(root, specs[i]);
    assert i != r && specs[i].volume != specs[r].volume;
    SameVolume(base, cfgs, specs, i, r);
  }

  /** Two mounts of one volume lead to two references to its directory, or to one to the work
      directory. */
  lemma TwiceIsTooMuch(root: Path, base: Path, own: Path, cfgs: seq<VolumeConfig>, specs: seq<Spec>, i: nat, j: nat)
    requires Sound(base, cfgs) && Hosted(base, cfgs, specs) && PlacedApart(root, specs)
    requires i < |specs| && j < |specs| && i != j && specs[i].volume == specs[j].volume
    requires InWorkspace(root, specs[i]) && Referenced(root, specs[j])
    ensures !(NoHostTwice(Refs(root, specs)) && !HasHost(Refs(root, specs), WorkDir(own, specs)))
  {
    SameVolume(base, cfgs, specs, i, j);
    var m := RefOf(root, specs, j);
    if IsRoot(specs[i]) {
      RootHostIsOfARoot(specs);
      var r :| 0 <= r < |specs| && IsRoot(specs[r]) && specs[r].host == WorkDir(own, specs);
      assert r == i by {
        assert Place(root, specs[r]) == Place(root, specs[i]);
      }
      assert Refs(root, specs)[m].host == WorkDir(own, specs);
    } else {
      var k := RefOf(root, specs, i);
      if k == m {
        SameRel(root, Place(root, specs[i]), Place(root, specs[j]));
      }
    }
  }

  /** containerPathOf undoes resolveInVolumeMount on every path of the workspace if and only if no
      volume is mounted twice at or inside it. */
  lemma ContainerPathInverts(root: Path, base: Path, first: string, rest: Path, cfgs: seq<VolumeConfig>, specs: seq<Spec>)
    requires Sound(base, cfgs) && Hosted(base, cfgs, specs) && Managed(first) && PlacedApart(root, specs)
    ensures (forall rel :: GoesBack(root, WorkDir(base + [first] + rest, specs), Refs(root, specs), rel)) <==>
            MountedOnce(root, specs)
  {
    var workDir, refs := WorkDir(base + [first] + rest, specs), Refs(root, specs);
    ClaimApart(root, base, first, rest, cfgs, specs);
    RefsOwnPlaces(root, specs);
    ReferencesInvert(root, workDir, refs);
    if MountedOnce(root, specs) {
      OnceIsEnough(root, base, first, rest, cfgs, specs);
    } else {
      var i, j :| 0 <= i < j < |specs| && InWorkspace(root, specs[i]) && InWorkspace(root, specs[j])
                  && specs[i].volume == specs[j].volume;
      assert Place(root, specs[i]) != Place(root, specs[j]);
      if Referenced(root, specs[j]) {
        TwiceIsTooMuch(root, base, base + [first] + rest, cfgs, specs, i, j);
      } else {
        assert root + [] == root;
        TwiceIsTooMuch(root, base, base + [first] + rest, cfgs, specs, j, i);
      }
    }
  }

  /** A volume at the workspace root that is mounted again below it. */
  function RootAndCache(v: Path): seq<Spec> {
    [Spec("v", v, false, []), Spec("v", v, false, ["cache"])]
  }

  lemma RootAndCacheRefs(root: Path, own: Path, v: Path)
    ensures WorkDir(own, RootAndCache(v)) == v && Refs(root, RootAndCache(v)) == [Ref(v, ["cache"])]
  {
    var specs := RootAndCache(v);
    var one := [specs[0]];
    assert specs[..1] == one && one[..0] == [];
    assert RootHost([]) == None && RootHost(one) == Some(v);
    assert Refs(root, []) == [] && Refs(root, one) == [];
    assert [] + [Ref(v, ["cache"])] == [Ref(v, ["cache"])];
  }

  /** A valid job for which it does not: a file of the workspace maps to a place inside that mount. */
  lemma RootVolumeMountedAgain(root: Path, own: Path, v: Path)
    ensures var specs := RootAndCache(v);
            && Validated(root, specs) && WorkDir(own, specs) == v
            && ContainerPath(root, v, Refs(root, specs), Resolved(v, Refs(root, specs), ["x"])) == Some(root + ["cache", "x"])
            && !GoesBack(root, v, Refs(root, specs), ["x"])
  {
    RootAndCacheRefs(root, own, v);
    var refs := [Ref(v, ["cache"])];
    var k := ResolvedThrough(v, refs, ["x"]);
    assert ["cache"][0] != ["x"][0];
    FirstHolder(refs, v + ["x"], 0);
    assert (v + ["x"])[|v|..] == ["x"] && ["cache"] + ["x"] == ["cache", "x"];
    assert |root + ["cache", "x"]| > |root + ["x"]|;
  }
}
