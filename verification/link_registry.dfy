/** The registry of volume links (internal/agent/volumes_mount.go): a crash at any point leaves every
    link this agent made findable by the next start's sweep.

    The registry file is replaced by an atomic rename and is readable. Every durable state a method
    passes through is kept in `past`; a crash leaves one of them.
  */
module LinkRegistry {
  import opened Common

  /** What is at a path: a link, or anything else. */
  datatype Node = LinkTo(dest: Path) | Other

  datatype Disk = Disk(nodes: map<Path, Node>, registry: seq<Path>)

  /** ownsLinkTarget: the node is a link into one of this agent's volumes. */
  predicate Ours(vols: set<Path>, n: Node) {
    n.LinkTo? && exists v :: v in vols && v <= n.dest
  }

  /** Every link into this agent's volumes is in the registry, except possibly those in `lost`. */
  predicate Listed(vols: set<Path>, d: Disk, lost: set<Path>) {
    forall l :: l in d.nodes && Ours(vols, d.nodes[l]) ==> l in lost || l in d.registry
  }

  predicate NoneOurs(vols: set<Path>, nodes: map<Path, Node>) {
    forall l :: l in nodes ==> !Ours(vols, nodes[l])
  }

  /** Whatever was not a link of this agent is still there, unchanged. */
  predicate ForeignKept(vols: set<Path>, d: Disk, d': Disk) {
    forall l :: l in d.nodes && !Ours(vols, d.nodes[l]) ==> l in d'.nodes && d'.nodes[l] == d.nodes[l]
  }

  predicate SameAt(d: Disk, d': Disk, l: Path) {
    && (l in d.nodes <==> l in d'.nodes) && (l in d.nodes ==> d.nodes[l] == d'.nodes[l])
    && (l in d.registry <==> l in d'.registry)
  }

  /** A step of the agent on the path l: nothing else changes, nothing foreign, and no link gets
      lost. This is also what another claim slot, working on another path, does meanwhile. */
  ghost predicate StepAt(vols: set<Path>, d: Disk, d': Disk, l: Path) {
    && (forall other :: other != l ==> SameAt(d, d', other))
    && ForeignKept(vols, d, d')
    && (Listed(vols, d, {}) ==> Listed(vols, d', {}))
  }

  /** What one slot relies on while others work: its own path is left alone. */
  predicate Meanwhile(vols: set<Path>, d: Disk, d': Disk, mine: Path) {
    SameAt(d, d', mine) && ForeignKept(vols, d, d') && (Listed(vols, d, {}) ==> Listed(vols, d', {}))
  }

  /** Slots that own different paths do not disturb each other. */
  lemma StepsOfOthers(vols: set<Path>, d: Disk, d': Disk, theirs: Path, mine: Path)
    requires StepAt(vols, d, d', theirs) && theirs != mine
    ensures Meanwhile(vols, d, d', mine)
  {
  }

  function Without(links: seq<Path>, l: Path): (kept: seq<Path>)
    ensures l !in kept
    ensures forall x :: x != l ==> (x in kept <==> x in links)
  {
    if links == [] then []
    else
      var rest := Without(links[..|links| - 1], l);
      if links[|links| - 1] == l then rest else rest + [links[|links| - 1]]
  }

  // The three steps, and why each is safe.

  lemma RecordIsSafe(vols: set<Path>, d: Disk, l: Path)
    ensures StepAt(vols, d, d.(registry := d.registry + [l]), l)
  {
  }

  lemma LinkIsSafe(vols: set<Path>, d: Disk, l: Path, dest: Path)
    requires l in d.registry && l !in d.nodes
    ensures StepAt(vols, d, d.(nodes := d.nodes[l := LinkTo(dest)]), l)
  {
  }

  lemma UnlinkIsSafe(vols: set<Path>, d: Disk, l: Path)
    requires l in d.nodes && Ours(vols, d.nodes[l])
    ensures StepAt(vols, d, d.(nodes := d.nodes - {l}), l)
  {
  }

  lemma ForgetIsSafe(vols: set<Path>, d: Disk, l: Path)
    requires l in d.nodes ==> !Ours(vols, d.nodes[l])
    ensures StepAt(vols, d, d.(registry := Without(d.registry, l)), l)
  {
  }

  class Links {
    const vols: set<Path>
    /** Paths whose Lstat fails with an error other than not-exist. */
    const uninspectable: set<Path>
    var disk: Disk
    ghost var past: seq<Disk>

    constructor (vols: set<Path>, uninspectable: set<Path>, disk: Disk)
      ensures this.vols == vols && this.uninspectable == uninspectable && this.disk == disk && past == [disk]
    {
      this.vols, this.uninspectable, this.disk, past := vols, uninspectable, disk, [disk];
    }

    /** The current state, and every state passed through so far, is safe to crash in. */
    ghost predicate Safe()
      reads this
    {
      Listed(vols, disk, {}) && forall i :: 0 <= i < |past| ==> Listed(vols, past[i], {})
    }

    /** One durable change of this slot, on path l. */
    method Commit(d: Disk, ghost l: Path)
      requires Safe() && StepAt(vols, disk, d, l)
      modifies this
      ensures disk == d && Safe() && past == old(past) + [d]
    {
      disk := d;
      past := past + [d];
    }

    /** Any number of steps of other slots, on paths other than mine. */
    method Others(mine: Path)
      requires Safe()
      modifies this
      ensures Safe() && old(past) <= past
      ensures SameAt(old(disk), disk, mine) && ForeignKept(vols, old(disk), disk)
    {
      var d: Disk := *;
      if Meanwhile(vols, disk, d, mine) {
        disk := d;
        past := past + [d];
      }
    }

    /** recordLink. */
    method Record(l: Path, works: bool) returns (ok: bool)
      requires Safe()
      modifies this
      ensures Safe() && old(past) <= past && disk.nodes == old(disk).nodes
      ensures ok ==> l in disk.registry
      ensures !ok ==> !works && disk == old(disk)
    {
      if l in disk.registry {
        return true;
      }
      ok := Performed(works);
      if ok {
        RecordIsSafe(vols, disk, l);
        Commit(disk.(registry := disk.registry + [l]), l);
      }
    }

    /** forgetLink, best effort. */
    method Forget(l: Path, works: bool)
      requires Safe() && (l in disk.nodes ==> !Ours(vols, disk.nodes[l]))
      modifies this
      ensures Safe() && old(past) <= past && disk.nodes == old(disk).nodes
      ensures disk.registry == Without(old(disk).registry, l) || (!works && disk.registry == old(disk).registry)
    {
      var written := Performed(works);
      if written {
        ForgetIsSafe(vols, disk, l);
        Commit(disk.(registry := Without(disk.registry, l)), l);
      }
    }

    /** installLink, interleaved with other slots between its steps. At every crash point each link
        is listed; nothing this agent did not make is replaced; and on success the link is there and
        listed. If no file operation fails (`works`), only something foreign in the way refuses it. */
    method InstallLink(target: Path, volPath: Path, works: bool) returns (ok: bool)
      requires Safe()
      modifies this
      ensures Safe() && old(past) <= past
      ensures ForeignKept(vols, old(disk), disk)
      ensures ok ==> target in disk.nodes && disk.nodes[target] == LinkTo(volPath) && target in disk.registry
      ensures works && target !in uninspectable ==>
                (ok <==> target !in old(disk).nodes || Ours(vols, old(disk).nodes[target]))
      ensures target in old(disk).nodes && !Ours(vols, old(disk).nodes[target]) ==> !ok
    {
      ok := MakeRoom(target, works);
      if !ok {
        return;
      }
      Others(target);
      ok := RecordAndLink(target, volPath, works);
    }

    /** The first half: a stale link of this agent at the target is removed, anything else refused. */
    method MakeRoom(target: Path, works: bool) returns (ok: bool)
      requires Safe()
      modifies this
      ensures Safe() && old(past) <= past && ForeignKept(vols, old(disk), disk)
      ensures ok ==> target !in disk.nodes
      ensures works && target !in uninspectable ==>
                (ok <==> target !in old(disk).nodes || Ours(vols, old(disk).nodes[target]))
      ensures target in old(disk).nodes && !Ours(vols, old(disk).nodes[target]) ==> !ok
    {
      if target in uninspectable {
        return false;
      }
      if target !in disk.nodes {
        return true;
      }
      if !Ours(vols, disk.nodes[target]) {
        return false;
      }
      ok := Performed(works);
      if ok {
        UnlinkIsSafe(vols, disk, target);
        Commit(disk.(nodes := disk.nodes - {target}), target);
      }
    }

    /** The second half: recorded first, so that a crash in between leaves no unlisted link. */
    method RecordAndLink(target: Path, volPath: Path, works: bool) returns (ok: bool)
      requires Safe() && target !in disk.nodes
      modifies this
      ensures Safe() && old(past) <= past && ForeignKept(vols, old(disk), disk)
      ensures ok ==> target in disk.nodes && disk.nodes[target] == LinkTo(volPath) && target in disk.registry
      ensures works ==> ok
    {
      ok := Record(target, works);
      if !ok {
        return;
      }
      Others(target);
      ok := Performed(works);
      if !ok {
        Forget(target, works);
        return;
      }
      LinkIsSafe(vols, disk, target, volPath);
      Commit(disk.(nodes := disk.nodes[target := LinkTo(volPath)]), target);
    }

    /** removeOurLink. Only a link into this agent's volumes is removed; success means none is left
        at that path. */
    method RemoveOurLink(link: Path, works: bool) returns (ok: bool)
      requires Safe()
      modifies this
      ensures Safe() && old(past) <= past
      ensures ForeignKept(vols, old(disk), disk)
      ensures ok ==> !(link in disk.nodes && Ours(vols, disk.nodes[link]))
      ensures works && link !in uninspectable ==> ok && link !in disk.registry
      ensures ok ==> (link in disk.nodes <==> link in old(disk).nodes && !Ours(vols, old(disk).nodes[link]))
    {
      if link in uninspectable {
        return false;
      }
      if link !in disk.nodes {
        Forget(link, works);
        return true;
      }
      if !Ours(vols, disk.nodes[link]) {
        Forget(link, works);
        return true;
      }
      ok := Performed(works);
      if !ok {
        return;
      }
      UnlinkIsSafe(vols, disk, link);
      Commit(disk.(nodes := disk.nodes - {link}), link);
      Others(link);
      Forget(link, works);
    }

    /** The sweep of one registry entry: remove it if it is a link of this agent, then forget it. */
    method SweepOne(l: Path, works: bool) returns (error: bool, unwritten: bool)
      requires Listed(vols, disk, uninspectable)
      modifies this
      ensures Listed(vols, disk, uninspectable)
      ensures old(past) <= past && forall k :: |old(past)| <= k < |past| ==> Listed(vols, past[k], uninspectable)
      ensures error ==> disk == old(disk)
      ensures !error ==> disk.nodes == old(disk).nodes - (if Sweepable(old(disk), l) then {l} else {})
      ensures !error && !unwritten ==> disk.registry == Without(old(disk).registry, l)
      ensures works ==> !error && !unwritten
    {
      error, unwritten := false, false;
      if Sweepable(disk, l) {
        var removed := Performed(works);
        if !removed {
          return true, false;
        }
        disk := disk.(nodes := disk.nodes - {l});
        past := past + [disk];
      }
      var written := Performed(works);
      unwritten := !written;
      if written {
        disk := disk.(registry := Without(disk.registry, l));
        past := past + [disk];
      }
    }

    predicate Sweepable(d: Disk, l: Path) {
      l !in uninspectable && l in d.nodes && Ours(vols, d.nodes[l])
    }

    /** The nodes left once the entries in `done` have been swept without an error. */
    ghost predicate SweptNodes(start: Disk, done: seq<Path>, nodes: map<Path, Node>) {
      forall l :: (l in nodes <==> l in start.nodes && !(l in done && Sweepable(start, l)))
                  && (l in nodes ==> nodes[l] == start.nodes[l])
    }

    lemma SweptOneMore(start: Disk, done: seq<Path>, l: Path, nodes: map<Path, Node>, nodes': map<Path, Node>)
      requires SweptNodes(start, done, nodes)
      requires nodes' == nodes - (if Sweepable(start.(nodes := nodes), l) then {l} else {})
      ensures SweptNodes(start, done + [l], nodes')
    {
    }

    ghost predicate Shrunk(start: Disk, nodes: map<Path, Node>) {
      && (forall l :: l in nodes ==> l in start.nodes && nodes[l] == start.nodes[l])
      && (forall l :: l in start.nodes && !Sweepable(start, l) ==> l in nodes)
    }

    /** sweepStaleVolumeLinks, at startup, with no other slot running. Nothing foreign is touched.
        With no removal error, what is left is everything but the links of this agent that it could
        inspect; so it removes every link of this agent if and only if it could inspect them all. The
        registry ends empty if every update was written, whether or not a link was left behind. */
    method Sweep(works: bool) returns (errors: bool, unwritten: bool)
      requires Listed(vols, disk, {})
      modifies this
      ensures Shrunk(old(disk), disk.nodes)
      ensures old(past) <= past && forall k :: |old(past)| <= k < |past| ==> Listed(vols, past[k], uninspectable)
      ensures !errors ==> forall l :: l in disk.nodes <==> l in old(disk).nodes && !Sweepable(old(disk), l)
      ensures !errors ==> (NoneOurs(vols, disk.nodes) <==>
                           forall l :: l in old(disk).nodes && Ours(vols, old(disk).nodes[l]) ==> l !in uninspectable)
      ensures !errors && !unwritten ==> disk.registry == []
      ensures works ==> !errors && !unwritten
    {
      var links := disk.registry;
      ghost var start := disk;
      errors, unwritten := false, false;
      for i := 0 to |links|
        invariant old(past) <= past && forall k :: |old(past)| <= k < |past| ==> Listed(vols, past[k], uninspectable)
        invariant Listed(vols, disk, uninspectable)
        invariant Shrunk(start, disk.nodes)
        invariant works ==> !errors && !unwritten
        invariant !errors ==> SweptNodes(start, links[..i], disk.nodes)
        invariant !errors && !unwritten ==> forall l :: l in disk.registry ==> l in links && l !in links[..i]
      {
        ghost var before := disk.nodes;
        var error, failed := SweepOne(links[i], works);
        assert links[..i + 1] == links[..i] + [links[i]];
        if !errors && !error {
          SweptOneMore(start, links[..i], links[i], before, disk.nodes);
        }
        errors, unwritten := errors || error, unwritten || failed;
      }
      assert links[..|links|] == links;
      assert disk.registry != [] ==> disk.registry[0] in disk.registry;
    }
  }

  /** A crash in any state passed through, then a new process that sweeps: every link of this agent
      is found and removed, provided the sweep meets no error. */
  method Restart(crashed: Links, d: Disk, ghost i: nat, works: bool) returns (m: Links, errors: bool, unwritten: bool)
    requires crashed.Safe() && i < |crashed.past| && d == crashed.past[i]
    ensures !errors ==>
              forall l, v :: l in m.disk.nodes && v in crashed.vols ==> !(m.disk.nodes[l].LinkTo? && v <= m.disk.nodes[l].dest)
    ensures forall l :: l in d.nodes && (d.nodes[l].Other? || forall v :: v in crashed.vols ==> !(v <= d.nodes[l].dest)) ==>
              l in m.disk.nodes && m.disk.nodes[l] == d.nodes[l]
    ensures !errors && !unwritten ==> m.disk.registry == []
    ensures works ==> !errors && !unwritten
  {
    m := new Links(crashed.vols, {}, d);
    errors, unwritten := m.Sweep(works);
  }

  /** A link that cannot be inspected at startup, with nothing else going wrong: it stays, and the
      registry no longer lists it. */
  method UninspectableLinkIsForgotten(link: Path, volume: Path) returns (m: Links)
    ensures link in m.disk.nodes && Ours(m.vols, m.disk.nodes[link])
    ensures m.disk.registry == []
  {
    m := new Links({volume}, {link}, Disk(map[link := LinkTo(volume)], [link]));
    var errors, unwritten := m.Sweep(true);
  }
}
