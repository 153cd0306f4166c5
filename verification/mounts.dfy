/** Volume directories and mount paths: the checks of NewVolumeManager (internal/agent/volumes.go)
    and the mapping of workspace paths to host paths (volumes_mount.go).

    Host and container paths are sequences of segments. Among prefixes of one path, more segments is
    the same as more bytes, which is how the source compares them.
  */
module VolumePaths {
  import opened Common

  /** The path an operator gives a volume: none, one that is not absolute, or an absolute one,
      cleaned. */
  datatype ConfiguredPath = Unset | NotAbsolute | Absolute(path: Path)

  /** sizeOk: the size is empty or a positive quantity. */
  datatype VolumeConfig = VolumeConfig(name: string, mode: string, sizeOk: bool, configured: ConfiguredPath)

  /** validateVolumeConfigName. */
  predicate NameOk(name: string) {
    name != "" && name != "." && name != ".." && '/' !in name && '\\' !in name
  }

  predicate ModeOk(mode: string) {
    mode == "exclusive" || mode == "shared"
  }

  function PathOf(base: Path, c: VolumeConfig): Path {
    if c.configured.Absolute? then c.configured.path else base + ["volumes", c.name]
  }

  function LowerChar(c: char): char {
    if 'A' <= c <= 'Z' then (c as int + 32) as char else c
  }

  function Lower(s: string): string {
    seq(|s|, i requires 0 <= i < |s| => LowerChar(s[i]))
  }

  predicate Overlap(p: Path, q: Path) {
    p <= q || q <= p
  }

  /** The directories right below the workspace base that the agent sweeps or manages itself. */
  predicate Managed(first: string) {
    "working" <= Lower(first) || Lower(first) == "detached" || "." <= first
  }

  /** The same but for the case of ASCII letters. */
  ghost predicate SameFold(a: string, b: string) {
    |a| == |b| && forall i :: 0 <= i < |a| ==> FoldsTo(a[i], b[i])
  }

  ghost predicate FoldsTo(c: char, lower: char) {
    if 'A' <= c <= 'Z' then lower as int - c as int == 'a' as int - 'A' as int else c == lower
  }

  lemma LowerMeans(s: string, t: string)
    ensures Lower(s) == t <==> SameFold(s, t)
  {
    if SameFold(s, t) {
      forall i | 0 <= i < |s|
        ensures LowerChar(s[i]) == t[i]
      {
        assert FoldsTo(s[i], t[i]);
      }
    } else if Lower(s) == t {
      forall i | 0 <= i < |s|
        ensures FoldsTo(s[i], t[i])
      {
        assert Lower(s)[i] == t[i];
      }
    }
  }

  /** Exactly those: working..., detached, in any case, and dot-prefixed names. */
  lemma ManagedAre(first: string)
    ensures Managed(first) <==>
            || (|first| >= 7 && SameFold(first[..7], "working"))
            || SameFold(first, "detached")
            || (first != "" && first[0] == '.')
  {
    LowerMeans(first, "detached");
    if |first| >= 7 {
      LowerMeans(first[..7], "working");
      assert Lower(first)[..7] == Lower(first[..7]);
    }
  }

  /** The default place of a volume is never in the agent's way. */
  lemma DefaultPathIsOutOfReach(base: Path, name: string)
    ensures OutOfReach(base, base + ["volumes", name])
  {
    var p := base + ["volumes", name];
    assert p[|base|] == "volumes" && |p| > |base|;
    assert Lower("volumes")[0] == 'v';
  }

  /** What checkOutOfGCReach accepts. */
  predicate OutOfReach(base: Path, p: Path) {
    !(p <= base) && (base <= p ==> !Managed(p[|base|]))
  }

  predicate Acceptable(base: Path, c: VolumeConfig) {
    NameOk(c.name) && ModeOk(c.mode) && c.sizeOk && !c.configured.NotAbsolute? && OutOfReach(base, PathOf(base, c))
  }

  /** Every declaration is well-formed and out of the agent's own way, and no two volumes share a name
      or data. */
  ghost predicate Sound(base: Path, cfgs: seq<VolumeConfig>) {
    && (forall i :: 0 <= i < |cfgs| ==> Acceptable(base, cfgs[i]))
    && (forall i, j :: 0 <= i < j < |cfgs| ==>
          cfgs[i].name != cfgs[j].name && !Overlap(PathOf(base, cfgs[i]), PathOf(base, cfgs[j])))
  }

  /** The second check, on the directory and the base with symlinks resolved, where both resolve. */
  predicate ResolvedOutOfReach(base: Path, p: Path, resolve: Path -> Option<Path>) {
    resolve(base).Some? && resolve(p).Some? ==> OutOfReach(resolve(base).value, resolve(p).value)
  }

  ghost predicate ResolvedSound(base: Path, cfgs: seq<VolumeConfig>, resolve: Path -> Option<Path>) {
    forall i :: 0 <= i < |cfgs| ==> ResolvedOutOfReach(base, PathOf(base, cfgs[i]), resolve)
  }

  /** vols holds exactly the configured volumes, with their directories. */
  ghost predicate Declares(base: Path, cfgs: seq<VolumeConfig>, vols: map<string, Path>) {
    && (forall i :: 0 <= i < |cfgs| ==> cfgs[i].name in vols && vols[cfgs[i].name] == PathOf(base, cfgs[i]))
    && (forall n :: n in vols ==> exists i :: 0 <= i < |cfgs| && cfgs[i].name == n)
  }

  /** NewVolumeManager: it accepts exactly the sound configurations. */
  method Declare(base: Path, cfgs: seq<VolumeConfig>, resolve: Path -> Option<Path>) returns (ok: bool, vols: map<string, Path>)
    ensures ok <==> Sound(base, cfgs) && ResolvedSound(base, cfgs, resolve)
    ensures ok ==> Declares(base, cfgs, vols)
  {
    ok, vols := DeclareAll(base, cfgs);
    if ok {
      ok := CheckResolved(base, cfgs, resolve);
    }
  }

  method CheckResolved(base: Path, cfgs: seq<VolumeConfig>, resolve: Path -> Option<Path>) returns (ok: bool)
    ensures ok <==> ResolvedSound(base, cfgs, resolve)
  {
    for i := 0 to |cfgs|
      invariant ResolvedSound(base, cfgs[..i], resolve)
    {
      if !ResolvedOutOfReach(base, PathOf(base, cfgs[i]), resolve) {
        return false;
      }
    }
    assert cfgs[..|cfgs|] == cfgs;
    ok := true;
  }

  /** The declaration loop. */
  method DeclareAll(base: Path, cfgs: seq<VolumeConfig>) returns (ok: bool, vols: map<string, Path>)
    ensures ok <==> Sound(base, cfgs)
    ensures ok ==> Declares(base, cfgs, vols)
  {
    vols := map[];
    for i := 0 to |cfgs|
      invariant Sound(base, cfgs[..i]) && Declares(base, cfgs[..i], vols)
    {
      assert cfgs[..i + 1] == cfgs[..i] + [cfgs[i]];
      ok, vols := DeclareOne(base, cfgs[..i], cfgs[i], vols);
      if !ok {
        SoundPrefix(base, cfgs, i + 1);
        return;
      }
    }
    assert cfgs[..|cfgs|] == cfgs;
    ok := true;
  }

  lemma SoundPrefix(base: Path, cfgs: seq<VolumeConfig>, i: nat)
    requires i <= |cfgs|
    ensures Sound(base, cfgs) ==> Sound(base, cfgs[..i])
  {
  }

  /** The checks on one entry of the configuration by itself. */
  method CheckConfig(base: Path, c: VolumeConfig) returns (ok: bool)
    ensures ok <==> Acceptable(base, c)
  {
    if c.name == "" || c.name == "." || c.name == ".." {
      return false;
    }
    for i := 0 to |c.name|
      invariant '/' !in c.name[..i] && '\\' !in c.name[..i]
    {
      if c.name[i] == '/' || c.name[i] == '\\' {
        return false;
      }
    }
    assert c.name[..|c.name|] == c.name;
    if (c.mode != "exclusive" && c.mode != "shared") || !c.sizeOk || c.configured.NotAbsolute? {
      return false;
    }
    ok := CheckOutOfGCReach(base, if c.configured.Absolute? then c.configured.path else base + ["volumes", c.name]);
  }

  /** checkOutOfGCReach. */
  method CheckOutOfGCReach(base: Path, p: Path) returns (ok: bool)
    ensures ok <==> OutOfReach(base, p)
  {
    if p <= base {
      return false;
    }
    if !(base <= p) {
      return true;
    }
    var first := p[|base|];
    if "working" <= Lower(first) {
      return false;
    }
    return !(Lower(first) == "detached" || "." <= first);
  }

  /** One turn of that loop. */
  method DeclareOne(base: Path, ghost cfgs: seq<VolumeConfig>, c: VolumeConfig, before: map<string, Path>)
    returns (ok: bool, vols: map<string, Path>)
    requires Sound(base, cfgs) && Declares(base, cfgs, before)
    ensures ok <==> Sound(base, cfgs + [c])
    ensures ok ==> Declares(base, cfgs + [c], vols)
  {
    vols := before;
    ghost var more := cfgs + [c];
    var good := CheckConfig(base, c);
    if !good {
      assert more[|cfgs|] == c;
      return false, vols;
    }
    var p := PathOf(base, c);
    if other :| other in vols && (other == c.name || Overlap(vols[other], p)) {
      ghost var k :| 0 <= k < |cfgs| && cfgs[k].name == other;
      assert more[k] == cfgs[k] && more[|cfgs|] == c;
      return false, vols;
    }
    OneMoreVolume(base, cfgs, c, vols);
    return true, vols[c.name := p];
  }

  lemma OneMoreVolume(base: Path, cfgs: seq<VolumeConfig>, c: VolumeConfig, vols: map<string, Path>)
    requires Sound(base, cfgs) && Declares(base, cfgs, vols)
    requires c.name !in vols && Acceptable(base, c) && forall other :: other in vols ==> !Overlap(vols[other], PathOf(base, c))
    ensures Sound(base, cfgs + [c]) && Declares(base, cfgs + [c], vols[c.name := PathOf(base, c)])
  {
    forall i | 0 <= i < |cfgs|
      ensures cfgs[i].name != c.name && !Overlap(PathOf(base, cfgs[i]), PathOf(base, c))
    {
      assert cfgs[i].name in vols;
    }
    OneMoreSound(base, cfgs, c);
    OneMoreDeclared(base, cfgs, c, vols);
  }

  lemma OneMoreSound(base: Path, cfgs: seq<VolumeConfig>, c: VolumeConfig)
    requires Sound(base, cfgs) && Acceptable(base, c)
    requires forall i :: 0 <= i < |cfgs| ==> cfgs[i].name != c.name && !Overlap(PathOf(base, cfgs[i]), PathOf(base, c))
    ensures Sound(base, cfgs + [c])
  {
  }

  lemma OneMoreDeclared(base: Path, cfgs: seq<VolumeConfig>, c: VolumeConfig, vols: map<string, Path>)
    requires Declares(base, cfgs, vols) && c.name !in vols
    ensures Declares(base, cfgs + [c], vols[c.name := PathOf(base, c)])
  {
    var more, after := cfgs + [c], vols[c.name := PathOf(base, c)];
    forall n | n in after
      ensures exists i :: 0 <= i < |more| && more[i].name == n
    {
      if n == c.name {
        assert more[|cfgs|].name == n;
      } else {
        var i :| 0 <= i < |cfgs| && cfgs[i].name == n;
        assert more[i].name == n;
      }
    }
  }

  /** A run's own workspace, <base>/working<N>/... or <base>/detached/..., never overlaps a volume
      that passed the check. */
  lemma WorkspaceApartFromVolumes(base: Path, first: string, rest: Path, volume: Path)
    requires OutOfReach(base, volume) && Managed(first)
    ensures !Overlap(base + [first] + rest, volume)
  {
  }
}

module MountMapping {
  import opened Common
  import opened VolumePaths

  /** One volume entry after planning: relative to the workspace or absolute. */
  datatype Spec = Spec(volume: string, host: Path, abs: bool, mp: Path)

  /** A bind mount of the container. */
  datatype Mount = Mount(host: Path, at: Path)

  /** volumeMountRef: a volume mounted at `rel` inside the workspace. */
  datatype Ref = Ref(host: Path, rel: Path)

  datatype VolumeMount = VolumeMount(names: seq<string>, alias: string, mountPath: Option<(bool, Path)>)

  /** What planMounts refuses. */
  ghost predicate Plannable(vols: map<string, Path>, shared: set<string>, v: VolumeMount) {
    && |v.names| == 1 && v.names[0] in vols && v.alias != "" && v.mountPath.Some?
    && var (abs, mp) := v.mountPath.value;
       !abs ==> (mp == [] ==> v.names[0] !in shared) && (mp != [] ==> mp[0] != "..")
  }

  /** planMounts, with each mountPath given as (absolute?, cleaned segments), or None when empty. */
  method PlanMounts(vols: map<string, Path>, shared: set<string>, mounts: seq<VolumeMount>) returns (r: Result<seq<Spec>>)
    ensures r.Ok? <==> forall i :: 0 <= i < |mounts| ==> Plannable(vols, shared, mounts[i])
    ensures r.Ok? ==>
              && |r.value| == |mounts|
              && forall i :: 0 <= i < |mounts| ==>
                   && r.value[i].volume == mounts[i].names[0] && r.value[i].host == vols[mounts[i].names[0]]
                   && (r.value[i].abs, r.value[i].mp) == mounts[i].mountPath.value
    ensures r.Ok? ==> forall i :: 0 <= i < |r.value| && !r.value[i].abs ==>
              if r.value[i].mp == [] then r.value[i].volume !in shared else r.value[i].mp[0] != ".."
  {
    var specs: seq<Spec> := [];
    for i := 0 to |mounts|
      invariant |specs| == i
      invariant forall k :: 0 <= k < i ==>
                  && Plannable(vols, shared, mounts[k])
                  && specs[k].volume == mounts[k].names[0] && specs[k].host == vols[mounts[k].names[0]]
                  && (specs[k].abs, specs[k].mp) == mounts[k].mountPath.value
    {
      var v := mounts[i];
      if |v.names| != 1 {
        return Err("exactly one volume must be chosen before mounting");
      }
      var name := v.names[0];
      if name !in vols {
        return Err("this agent does not declare the volume");
      }
      if v.alias == "" {
        return Err("the volume has no alias");
      }
      if v.mountPath.None? {
        return Err("mountPath is required");
      }
      var (abs, mp) := v.mountPath.value;
      if !abs && mp == [] && name in shared {
        return Err("a shared volume cannot be mounted at the workspace root");
      }
      if !abs && mp != [] && mp[0] == ".." {
        return Err("mountPath escapes the workspace");
      }
      specs := specs + [Spec(name, vols[name], abs, mp)];
    }
    r := Ok(specs);
  }

  /** A relative mount at "." is the workspace itself. */
  predicate IsRoot(s: Spec) {
    !s.abs && s.mp == []
  }

  /** Where a volume is bound in the container. */
  function Place(root: Path, s: Spec): Path {
    if s.abs then s.mp else root + s.mp
  }

  /** isolatedVolumeMounts: where each volume but a root one is bound in the container. */
  function Extra(root: Path, specs: seq<Spec>): seq<Mount> {
    if specs == [] then []
    else
      var before, s := Extra(root, specs[..|specs| - 1]), specs[|specs| - 1];
      if IsRoot(s) then before else before + [Mount(s.host, Place(root, s))]
  }

  /** relativeVolumeMounts for an isolated claim: the volumes strictly inside the workspace. */
  function Refs(root: Path, specs: seq<Spec>): seq<Ref> {
    if specs == [] then []
    else
      var before, s := Refs(root, specs[..|specs| - 1]), specs[|specs| - 1];
      if IsRoot(s) then before
      else if !s.abs then before + [Ref(s.host, s.mp)]
      else if root <= s.mp && root != s.mp then before + [Ref(s.host, s.mp[|root|..])]
      else before
  }

  method IsolatedVolumeMounts(root: Path, specs: seq<Spec>) returns (rootHost: Option<Path>, extra: seq<Mount>)
    ensures extra == Extra(root, specs)
    ensures rootHost.Some? <==> exists i :: 0 <= i < |specs| && IsRoot(specs[i])
    ensures rootHost.Some? ==> exists i :: 0 <= i < |specs| && IsRoot(specs[i]) && specs[i].host == rootHost.value
  {
    rootHost, extra := None, [];
    for i := 0 to |specs|
      invariant extra == Extra(root, specs[..i])
      invariant rootHost.Some? <==> exists k :: 0 <= k < i && IsRoot(specs[k])
      invariant rootHost.Some? ==> exists k :: 0 <= k < i && IsRoot(specs[k]) && specs[k].host == rootHost.value
    {
      assert specs[..i + 1][..i] == specs[..i];
      var s := specs[i];
      if IsRoot(s) {
        rootHost := Some(s.host);
      } else {
        extra := extra + [Mount(s.host, Place(root, s))];
      }
    }
    assert specs[..|specs|] == specs;
  }

  method RelativeVolumeMounts(root: Path, specs: seq<Spec>) returns (refs: seq<Ref>)
    ensures refs == Refs(root, specs)
  {
    refs := [];
    for i := 0 to |specs|
      invariant refs == Refs(root, specs[..i])
    {
      assert specs[..i + 1][..i] == specs[..i];
      var s := specs[i];
      if IsRoot(s) {
        continue;
      }
      if !s.abs {
        refs := refs + [Ref(s.host, s.mp)];
      } else if root <= s.mp && root != s.mp {
        refs := refs + [Ref(s.host, s.mp[|root|..])];
      }
    }
    assert specs[..|specs|] == specs;
  }

  /** The container's mount table: the workspace, then the volumes in order. */
  function Table(root: Path, workDir: Path, specs: seq<Spec>): seq<Mount> {
    [Mount(workDir, root)] + Extra(root, specs)
  }

  // ---------------------------------------------------------------------------------------
  // Looking a path up
  // ---------------------------------------------------------------------------------------

  /** The deepest mount found so far and where it leads. */
  datatype Hit = Hit(depth: nat, host: Path)

  function Try(m: Mount, p: Path, best: Option<Hit>, coversEqual: bool): Option<Hit> {
    if m.at <= p && (best.None? || |m.at| > best.value.depth || (coversEqual && |m.at| == best.value.depth))
    then Some(Hit(|m.at|, m.host + p[|m.at|..]))
    else best
  }

  /** Deepest mount wins. Of two at the same place, a mount table shows the later (coversEqual); a
      search that replaces only on a strictly longer match keeps the earlier. */
  function Lookup(table: seq<Mount>, p: Path, coversEqual: bool): Option<Hit> {
    if table == [] then None
    else Try(table[|table| - 1], p, Lookup(table[..|table| - 1], p, coversEqual), coversEqual)
  }

  function AsMounts(refs: seq<Ref>): seq<Mount> {
    seq(|refs|, i requires 0 <= i < |refs| => Mount(refs[i].host, refs[i].rel))
  }

  /** What resolveInVolumeMount answers for the workspace path rel. */
  function Resolved(workDir: Path, refs: seq<Ref>, rel: Path): Path {
    match Lookup(AsMounts(refs), rel, false)
    case None => workDir + rel
    case Some(hit) => hit.host
  }

  method ResolveInVolumeMount(workDir: Path, resolved: Path, refs: seq<Ref>) returns (host: Path)
    requires workDir <= resolved
    ensures host == Resolved(workDir, refs, resolved[|workDir|..])
  {
    var rel := resolved[|workDir|..];
    assert workDir + rel == resolved;
    var best: Option<Ref> := None;
    for i := 0 to |refs|
      invariant best.Some? ==> best.value.rel <= rel
      invariant Lookup(AsMounts(refs[..i]), rel, false) ==
                if best.None? then None else Some(Hit(|best.value.rel|, best.value.host + rel[|best.value.rel|..]))
    {
      assert AsMounts(refs[..i + 1])[..i] == AsMounts(refs[..i]);
      var r := refs[i];
      if r.rel <= rel && (best.None? || |r.rel| > |best.value.rel|) {
        best := Some(r);
      }
    }
    assert refs[..|refs|] == refs;
    host := if best.None? then resolved else best.value.host + rel[|best.value.rel|..];
  }

  /** The references are the table's volumes strictly inside the workspace. */
  function Inside(root: Path, table: seq<Mount>): seq<Ref> {
    if table == [] then []
    else
      var before, m := Inside(root, table[..|table| - 1]), table[|table| - 1];
      if root <= m.at && root != m.at then before + [Ref(m.host, m.at[|root|..])] else before
  }

  lemma {:induction false} RefsAreInside(root: Path, specs: seq<Spec>)
    ensures Refs(root, specs) == Inside(root, Extra(root, specs))
  {
    if specs != [] {
      var front, s := specs[..|specs| - 1], specs[|specs| - 1];
      RefsAreInside(root, front);
      if !IsRoot(s) {
        var m := Mount(s.host, Place(root, s));
        assert (Extra(root, front) + [m])[..|Extra(root, front)|] == Extra(root, front);
        assert !s.abs ==> (root + s.mp)[|root|..] == s.mp && root != root + s.mp;
      }
    }
  }

  lemma {:induction false} LookupDepth(table: seq<Mount>, p: Path, coversEqual: bool)
    ensures match Lookup(table, p, coversEqual)
            case None => forall i :: 0 <= i < |table| ==> !(table[i].at <= p)
            case Some(hit) =>
              && hit.depth <= |p|
              && (exists i :: 0 <= i < |table| && table[i].at == p[..hit.depth])
              && (forall i :: 0 <= i < |table| && table[i].at <= p ==> |table[i].at| <= hit.depth)
  {
    if table != [] {
      var front := table[..|table| - 1];
      LookupDepth(front, p, coversEqual);
      var m := table[|table| - 1];
      assert forall i :: 0 <= i < |front| ==> front[i] == table[i];
      if m.at <= p {
        assert m.at == p[..|m.at|];
      }
    }
  }

  /** The host-side search over the references is the earlier-wins lookup in the container's table. */
  lemma {:induction false} ResolvedIsLookup(root: Path, workDir: Path, extra: seq<Mount>, rel: Path)
    ensures Lookup([Mount(workDir, root)] + extra, root + rel, false) ==
            Lifted(root, workDir, rel, Lookup(AsMounts(Inside(root, extra)), rel, false))
  {
    var table := [Mount(workDir, root)] + extra;
    if extra == [] {
      assert table[..0] == [];
      assert (root + rel)[|root|..] == rel;
    } else {
      var front, m := extra[..|extra| - 1], extra[|extra| - 1];
      assert table[..|table| - 1] == [Mount(workDir, root)] + front;
      assert front + [m] == extra;
      ResolvedIsLookup(root, workDir, front, rel);
      InsideStep(root, front, m, rel);
      SameTry(root, m, rel, Lookup(AsMounts(Inside(root, front)), rel, false), workDir);
    }
  }

  /** What a search over the references finds, in terms of the container's table. */
  function Lifted(root: Path, workDir: Path, rel: Path, hit: Option<Hit>): Option<Hit> {
    match hit
    case None => Some(Hit(|root|, workDir + rel))
    case Some(h) => Some(Hit(|root| + h.depth, h.host))
  }

  /** One more mount changes both searches alike. */
  lemma SameTry(root: Path, m: Mount, rel: Path, best: Option<Hit>, workDir: Path)
    ensures Try(m, root + rel, Lifted(root, workDir, rel, best), false) ==
            if root <= m.at && root != m.at
            then Lifted(root, workDir, rel, Try(Mount(m.host, m.at[|root|..]), rel, best, false))
            else Lifted(root, workDir, rel, best)
  {
    var p := root + rel;
    if |root| < |m.at| && m.at <= p {
      assert m.at == p[..|m.at|] && root == p[..|root|] == m.at[..|root|];
      assert m.at[|root|..] == p[..|m.at|][|root|..] == rel[..|m.at| - |root|];
      assert p[|m.at|..] == rel[|m.at| - |root|..];
    }
    if |root| < |m.at| && root <= m.at && m.at[|root|..] <= rel {
      assert m.at == root + m.at[|root|..];
    }
    assert root <= m.at && root != m.at ==> |root| < |m.at| by {
      if root <= m.at && |root| == |m.at| {
        assert m.at[..|root|] == m.at;
      }
    }
  }

  lemma InsideStep(root: Path, front: seq<Mount>, m: Mount, rel: Path)
    ensures Lookup(AsMounts(Inside(root, front + [m])), rel, false) ==
            var best := Lookup(AsMounts(Inside(root, front)), rel, false);
            if root <= m.at && root != m.at then Try(Mount(m.host, m.at[|root|..]), rel, best, false) else best
  {
    var before, after := Inside(root, front), Inside(root, front + [m]);
    assert (front + [m])[..|front|] == front;
    if root <= m.at && root != m.at {
      assert AsMounts(after)[..|before|] == AsMounts(before);
    }
  }

  // ---------------------------------------------------------------------------------------
  // Host-side resolution against the container
  // ---------------------------------------------------------------------------------------

  /** The host resolves the workspace path rel to what the container sees there. */
  ghost predicate Agrees(root: Path, workDir: Path, specs: seq<Spec>, rel: Path) {
    var seen := Lookup(Table(root, workDir, specs), root + rel, true);
    seen.Some? && seen.value.host == Resolved(workDir, Refs(root, specs), rel)
  }

  lemma ResolvedIsEarlierWins(root: Path, workDir: Path, specs: seq<Spec>, rel: Path)
    ensures var hit := Lookup(Table(root, workDir, specs), root + rel, false);
            hit.Some? && hit.value.host == Resolved(workDir, Refs(root, specs), rel)
  {
    RefsAreInside(root, specs);
    ResolvedIsLookup(root, workDir, Extra(root, specs), rel);
  }

  /** A lookup is decided at the mount point it ends in. */
  lemma {:induction false} LookupAtMountPoint(table: seq<Mount>, p: Path, coversEqual: bool, d: nat)
    requires d <= |p|
    requires forall i :: 0 <= i < |table| && table[i].at <= p ==> |table[i].at| <= d
    ensures match Lookup(table, p, coversEqual)
            case None => Lookup(table, p[..d], coversEqual).None?
            case Some(hit) =>
              && Lookup(table, p[..d], coversEqual).Some?
              && Lookup(table, p[..d], coversEqual).value.depth == hit.depth <= d
              && hit.host == Lookup(table, p[..d], coversEqual).value.host + p[d..]
  {
    if table != [] {
      var front, m := table[..|table| - 1], table[|table| - 1];
      assert forall i :: 0 <= i < |front| ==> front[i] == table[i];
      LookupAtMountPoint(front, p, coversEqual, d);
      if m.at <= p {
        assert m.at == p[..|m.at|] == p[..d][..|m.at|];
        assert m.host + p[|m.at|..] == m.host + p[..d][|m.at|..] + p[d..];
      } else if |m.at| <= d {
        assert p[..d][..|m.at|] == p[..|m.at|];
      }
    }
  }

  /** Host and container agree on every path of the workspace if they agree on every mount point. */
  lemma AgreementIsDecidedAtMountPoints(root: Path, workDir: Path, specs: seq<Spec>, rel: Path)
    requires var table := Table(root, workDir, specs);
             forall i :: 0 <= i < |table| && root <= table[i].at ==> Agrees(root, workDir, specs, table[i].at[|root|..])
    ensures Agrees(root, workDir, specs, rel)
  {
    var table, p := Table(root, workDir, specs), root + rel;
    LookupDepth(table, p, true);
    LookupDepth(table, p, false);
    assert table[0].at == root && root <= p;
    var d := Lookup(table, p, true).value.depth;
    var i :| 0 <= i < |table| && table[i].at == p[..d];
    assert root == p[..d][..|root|];
    var shallow := table[i].at[|root|..];
    assert root + shallow == p[..d];
    LookupAtMountPoint(table, p, true, d);
    LookupAtMountPoint(table, p, false, d);
    ResolvedIsEarlierWins(root, workDir, specs, shallow);
    ResolvedIsEarlierWins(root, workDir, specs, rel);
  }

  /** Mount i is the first at its place. */
  predicate First(table: seq<Mount>, i: nat) {
    i < |table| && forall k :: 0 <= k < i ==> table[k].at != table[i].at
  }

  /** Mount i is the last at its place. */
  predicate Last(table: seq<Mount>, i: nat) {
    i < |table| && forall k :: i < k < |table| ==> table[k].at != table[i].at
  }

  /** At its own place, the first mount is what an earlier-wins lookup finds. */
  lemma {:induction false} FirstIsFound(table: seq<Mount>, i: nat)
    requires First(table, i)
    ensures Lookup(table, table[i].at, false) == Some(Hit(|table[i].at|, table[i].host))
  {
    var front, last, p := table[..|table| - 1], |table| - 1, table[i].at;
    assert p[|p|..] == [] && table[i].host + [] == table[i].host;
    if i == last {
      LookupDepth(front, p, false);
      assert p[..|p|] == p;
    } else {
      FirstIsFound(front, i);
    }
  }

  /** And the last mount is what the container sees there. */
  lemma {:induction false} LastIsFound(table: seq<Mount>, i: nat)
    requires Last(table, i)
    ensures Lookup(table, table[i].at, true) == Some(Hit(|table[i].at|, table[i].host))
  {
    var front, last, p := table[..|table| - 1], |table| - 1, table[i].at;
    assert p[|p|..] == [] && table[i].host + [] == table[i].host;
    if i == last {
      LookupDepth(front, p, true);
    } else {
      LastIsFound(front, i);
      assert p[..|p|] == p;
    }
  }

  /** Both ends of the mounts at one place. */
  lemma {:induction false} FirstAt(table: seq<Mount>, i: nat) returns (first: nat)
    requires i < |table|
    ensures First(table, first) && table[first].at == table[i].at
  {
    if k :| 0 <= k < i && table[k].at == table[i].at {
      first := FirstAt(table, k);
    } else {
      first := i;
    }
  }

  lemma {:induction false} LastAt(table: seq<Mount>, i: nat) returns (last: nat)
    requires i < |table|
    ensures Last(table, last) && table[last].at == table[i].at
    decreases |table| - i
  {
    if k :| i < k < |table| && table[k].at == table[i].at {
      last := LastAt(table, k);
    } else {
      last := i;
    }
  }

  /** The mount first made at a place of the workspace and the one that covers it there show the same
      directory. */
  ghost predicate NothingHidden(root: Path, table: seq<Mount>) {
    forall i: nat, j: nat :: First(table, i) && Last(table, j) && table[i].at == table[j].at && root <= table[i].at
      ==> table[i].host == table[j].host
  }

  lemma AgreementAtAPlace(root: Path, workDir: Path, specs: seq<Spec>, i: nat, j: nat)
    requires var table := Table(root, workDir, specs);
             First(table, i) && Last(table, j) && table[i].at == table[j].at && root <= table[i].at
    ensures var table := Table(root, workDir, specs);
            Agrees(root, workDir, specs, table[i].at[|root|..]) <==> table[i].host == table[j].host
  {
    var table := Table(root, workDir, specs);
    FirstIsFound(table, i);
    LastIsFound(table, j);
    assert root + table[i].at[|root|..] == table[i].at;
    ResolvedIsEarlierWins(root, workDir, specs, table[i].at[|root|..]);
  }

  /** Host and container agree on every path of the workspace if and only if no mount hides a
      different one made before it at the same place. */
  lemma AgreementExact(root: Path, workDir: Path, specs: seq<Spec>)
    ensures (forall rel :: Agrees(root, workDir, specs, rel)) <==> NothingHidden(root, Table(root, workDir, specs))
  {
    var table := Table(root, workDir, specs);
    if NothingHidden(root, table) {
      forall i | 0 <= i < |table| && root <= table[i].at
        ensures Agrees(root, workDir, specs, table[i].at[|root|..])
      {
        var first := FirstAt(table, i);
        var last := LastAt(table, i);
        AgreementAtAPlace(root, workDir, specs, first, last);
      }
      forall rel
        ensures Agrees(root, workDir, specs, rel)
      {
        AgreementIsDecidedAtMountPoints(root, workDir, specs, rel);
      }
    } else {
      var i: nat, j: nat :| First(table, i) && Last(table, j) && table[i].at == table[j].at && root <= table[i].at
                            && table[i].host != table[j].host;
      AgreementAtAPlace(root, workDir, specs, i, j);
    }
  }

  ghost predicate DistinctPlaces(table: seq<Mount>) {
    forall i, j :: 0 <= i < j < |table| ==> table[i].at != table[j].at
  }

  /** With every mount at its own place, which is what a job's validation enforces, host-side
      resolution names the file the container sees, for every path of the workspace. */
  lemma HostAgreesWithContainer(root: Path, workDir: Path, specs: seq<Spec>, rel: Path)
    requires DistinctPlaces(Table(root, workDir, specs))
    ensures Agrees(root, workDir, specs, rel)
  {
    AgreementExact(root, workDir, specs);
  }

  /** What applying a job checks of its mount paths (internal/dsl/volumes.go): no two alike, and no
      absolute one at or inside the container's workspace. */
  ghost predicate Validated(root: Path, specs: seq<Spec>) {
    && (forall i :: 0 <= i < |specs| && specs[i].abs ==> !(root <= specs[i].mp))
    && (forall i, j :: 0 <= i < j < |specs| ==> (specs[i].abs, specs[i].mp) != (specs[j].abs, specs[j].mp))
  }

  lemma {:induction false} ExtraPlaces(root: Path, specs: seq<Spec>, k: nat)
    requires k < |Extra(root, specs)|
    ensures exists i :: 0 <= i < |specs| && !IsRoot(specs[i]) && Extra(root, specs)[k].at == Place(root, specs[i])
  {
    var front, last := specs[..|specs| - 1], |specs| - 1;
    if k < |Extra(root, front)| {
      ExtraPlaces(root, front, k);
      var i :| 0 <= i < |front| && !IsRoot(front[i]) && Extra(root, front)[k].at == Place(root, front[i]);
      assert specs[i] == front[i];
    } else {
      assert Extra(root, specs)[k].at == Place(root, specs[last]);
    }
  }

  lemma PlacesDiffer(root: Path, specs: seq<Spec>, i: nat, j: nat)
    requires Validated(root, specs) && i < j < |specs|
    ensures Place(root, specs[i]) != Place(root, specs[j])
  {
    assert (root + specs[i].mp)[|root|..] == specs[i].mp;
    assert (root + specs[j].mp)[|root|..] == specs[j].mp;
    assert root <= root + specs[i].mp && root <= root + specs[j].mp;
  }

  /** The last volume's place is none of the earlier ones. */
  lemma NewPlace(root: Path, workDir: Path, specs: seq<Spec>, k: nat)
    requires Validated(root, specs) && specs != [] && !IsRoot(specs[|specs| - 1])
    requires k < |Table(root, workDir, specs[..|specs| - 1])|
    ensures Table(root, workDir, specs[..|specs| - 1])[k].at != Place(root, specs[|specs| - 1])
  {
    var front, last := specs[..|specs| - 1], |specs| - 1;
    if k == 0 {
      assert !specs[last].abs ==> |root + specs[last].mp| > |root|;
    } else {
      ExtraPlaces(root, front, k - 1);
      var i :| 0 <= i < |front| && !IsRoot(front[i]) && Extra(root, front)[k - 1].at == Place(root, front[i]);
      assert front[i] == specs[i];
      PlacesDiffer(root, specs, i, last);
    }
  }

  /** A validated job mounts everything at its own place. */
  lemma {:induction false} ValidatedPlaces(root: Path, workDir: Path, specs: seq<Spec>)
    requires Validated(root, specs)
    ensures DistinctPlaces(Table(root, workDir, specs))
  {
    if specs != [] {
      var s, front := specs[|specs| - 1], specs[..|specs| - 1];
      ValidatedPlaces(root, workDir, front);
      if !IsRoot(s) {
        forall k | 0 <= k < |Table(root, workDir, front)|
          ensures Table(root, workDir, front)[k].at != Place(root, s)
        {
          NewPlace(root, workDir, specs, k);
        }
        assert Table(root, workDir, specs) == Table(root, workDir, front) + [Mount(s.host, Place(root, s))];
      }
    }
  }

  /** Without that they can disagree: a volume mounted absolutely at the container's workspace path
      is what the container sees there, and the host side still reads the work directory. */
  lemma VolumeOverTheWorkspace(root: Path, workDir: Path, host: Path)
    requires root != [] && host != workDir
    ensures !Agrees(root, workDir, [Spec("v", host, true, root)], [])
  {
    var specs := [Spec("v", host, true, root)];
    assert specs[..0] == [];
    var table := Table(root, workDir, specs);
    assert Extra(root, specs) == [Mount(host, root)];
    var one := [Mount(workDir, root)];
    assert table[..1] == one && table[1] == Mount(host, root) && one[..0] == [];
    assert root + [] == root && root[|root|..] == [] && host + [] == host && workDir + [] == workDir;
    forall coversEqual: bool
      ensures Lookup(one, root, coversEqual) == Some(Hit(|root|, workDir))
    {
      assert Lookup([], root, coversEqual) == None;
    }
    assert Lookup(table, root, true) == Some(Hit(|root|, host));
    assert Lookup(table, root, false) == Some(Hit(|root|, workDir));
    ResolvedIsEarlierWins(root, workDir, specs, []);
  }
}
