/** Archiving a tree and extracting it again. */
module ArchiveRoundTrip {
  import opened Common
  import opened FileTree
  import opened ArchiveWriting
  import opened Extraction

  ghost predicate Proper(name: seq<string>) {
    forall i :: 0 <= i < |name| ==> name[i] != "" && name[i] != "." && name[i] != ".."
  }

  /** The names a file system gives. */
  ghost predicate WellNamed(t: Tree) {
    forall p :: p in t ==> Proper(p)
  }

  lemma {:induction false} ResolveProper(at: Path, name: seq<string>)
    requires Proper(name)
    ensures Resolve(at, name) == Some(at + name)
    decreases |name|
  {
    if name == [] {
      assert at + name == at;
    } else {
      assert at + [name[0]] + name[1..] == at + name;
      ResolveProper(at + [name[0]], name[1..]);
    }
  }

  /** An archive of p, made with the exclusions `skip` and names relative to base, that lists the
      paths qs as the entries es; and its extraction into dest with the exclusions `out`, on a disk
      that held t0. */
  datatype Trip = Trip(t: Tree, skip: set<Path>, p: Path, base: Path, qs: seq<Path>, es: seq<Entry>,
                       t0: Tree, dest: Path, out: seq<Path>)

  function Options(trip: Trip): Config {
    Config(trip.dest, [], trip.out, false)
  }

  /** The source side: what WriteArchive makes. */
  ghost predicate Archived(trip: Trip) {
    && WellFormed(trip.t) && WellNamed(trip.t)
    && Lists(trip.t, trip.skip, trip.p, trip.qs) && EntriesOf(trip.t, trip.base, trip.qs, trip.es)
    && (trip.base == trip.p || (trip.p != [] && trip.base == Parent(trip.p)))
    && (trip.p in trip.t && trip.t[trip.p].File? ==> trip.base != trip.p)
  }

  /** The destination side: an existing empty directory. */
  ghost predicate EmptyDir(t0: Tree, dest: Path) {
    && WellFormed(t0) && LinkFree(t0) && dest in t0 && t0[dest].Dir?
    && forall x :: x in t0 && dest <= x ==> x == dest
  }

  ghost predicate Sane(trip: Trip) {
    Archived(trip) && EmptyDir(trip.t0, trip.dest)
  }

  /** The path of the source that lands at x. */
  function Origin(trip: Trip, x: Path): Path
    requires trip.dest <= x
  {
    trip.base + x[|trip.dest|..]
  }

  /** Where q lands. */
  function Place(trip: Trip, q: Path): Path
    requires trip.base <= q
  {
    trip.dest + q[|trip.base|..]
  }

  /** x is the copy of one of the first n listed paths, a directory or file. */
  ghost predicate Copied(trip: Trip, n: nat, x: Path)
    requires n <= |trip.qs|
  {
    trip.dest <= x && var q := Origin(trip, x); q in trip.qs[..n] && q in trip.t && !trip.t[q].Link? && !UnderAny(x, trip.out)
  }

  ghost predicate MirrorsAt(trip: Trip, n: nat, t': Tree, x: Path)
    requires n <= |trip.qs|
  {
    if Copied(trip, n, x) then x in t' && t'[x] == trip.t[Origin(trip, x)]
    else SameAt(trip.t0, t', x)
  }

  /** t' is t0 with the first n listed directories and files copied below dest, and nothing else. */
  ghost predicate Mirrors(trip: Trip, n: nat, t': Tree)
    requires n <= |trip.qs|
  {
    forall x :: MirrorsAt(trip, n, t', x)
  }

  /** q is a symlink whose place is not excluded. */
  predicate CountsAsLink(trip: Trip, q: Path) {
    q in trip.t && trip.t[q].Link? && trip.base <= q && !UnderAny(Place(trip, q), trip.out)
  }

  ghost function Links(trip: Trip, n: nat): set<Path>
    requires n <= |trip.qs|
  {
    set q | q in trip.qs[..n] && CountsAsLink(trip, q)
  }

  lemma LinksOneMore(trip: Trip, n: nat)
    requires n < |trip.qs| && ParentsFirst(trip.qs)
    ensures |Links(trip, n + 1)| == |Links(trip, n)| + if CountsAsLink(trip, trip.qs[n]) then 1 else 0
  {
    var q := trip.qs[n];
    assert trip.qs[..n + 1] == trip.qs[..n] + [q];
    assert Links(trip, n + 1) == Links(trip, n) + if CountsAsLink(trip, q) then {q} else {};
  }

  /** Making one directory in an existing one adds just that. */
  lemma MakeOneDir(s: State, x: Path)
    requires WellFormed(s.tree) && !s.failed && x != [] && x !in s.tree
    requires Parent(x) in s.tree && s.tree[Parent(x)].Dir?
    ensures !MakeDirs(s, x).failed && MakeDirs(s, x).tree == s.tree[x := Dir]
    ensures MakeDirs(s, x).skippedLinks == s.skippedLinks
  {
    NewDirIsNotObstructed(s.tree, x);
    forall q
      ensures q in WithDirs(s.tree, x) <==> q in s.tree || q == x
      ensures q in s.tree ==> WithDirs(s.tree, x)[q] == s.tree[q]
    {
      WithDirsKeys(s.tree, x, q);
      OnTheWayToNew(s.tree, x, q);
    }
    WithDirsKeys(s.tree, x, x);
  }

  lemma OnTheWayToNew(t: Tree, x: Path, q: Path)
    requires WellFormed(t) && x != [] && x !in t && Parent(x) in t
    ensures q <= x ==> q in t || q == x
  {
    if q <= x && |q| < |x| {
      assert q <= Parent(x);
      AncestorExists(t, q, Parent(x));
    } else if q <= x {
      SamePath(q, x);
    }
  }

  lemma NewDirIsNotObstructed(t: Tree, x: Path)
    requires WellFormed(t) && x != [] && x !in t && Parent(x) in t && t[Parent(x)].Dir?
    ensures !Obstructed(t, x)
  {
    forall i | 0 <= i <= |x| && x[..i] in t
      ensures t[x[..i]].Dir?
    {
      ExistingOnTheWay(t, x, x[..i]);
    }
  }

  lemma ExistingOnTheWay(t: Tree, x: Path, q: Path)
    requires WellFormed(t) && x != [] && x !in t && Parent(x) in t && t[Parent(x)].Dir?
    requires q <= x && q in t
    ensures t[q].Dir?
  {
    if |q| < |x| {
      assert q <= Parent(x);
      AncestorExists(t, q, Parent(x));
    } else {
      SamePath(q, x);
    }
  }

  /** Where q lands comes from q, and below where its parent lands. */
  lemma Landing(trip: Trip, q: Path)
    requires trip.base <= q
    ensures trip.dest <= Place(trip, q) && Origin(trip, Place(trip, q)) == q
    ensures |trip.base| < |q| ==>
              && Place(trip, q) != trip.dest && Place(trip, q) != []
              && trip.base <= Parent(q) && Parent(Place(trip, q)) == Place(trip, Parent(q))
  {
  }

  lemma PlaceIsFree(trip: Trip, n: nat, t': Tree, q: Path)
    requires n <= |trip.qs| && Mirrors(trip, n, t') && trip.base <= q && |trip.base| < |q| && q !in trip.qs[..n]
    requires EmptyDir(trip.t0, trip.dest)
    ensures Place(trip, q) !in t'
  {
    Landing(trip, q);
    assert MirrorsAt(trip, n, t', Place(trip, q));
  }

  /** If a place is not excluded, neither is its directory, unless that is the file system root. */
  lemma DirIsNotExcluded(x: Path, out: seq<Path>)
    requires !UnderAny(x, out)
    ensures Parent(x) == [] || !UnderAny(Parent(x), out)
  {
    assert Parent(x) <= x;
  }

  lemma DirIsThere(trip: Trip, n: nat, t': Tree, q: Path)
    requires n <= |trip.qs| && Mirrors(trip, n, t') && trip.base <= q && EmptyDir(trip.t0, trip.dest)
    requires q in trip.qs[..n] ==> q in trip.t && trip.t[q].Dir?
    requires q !in trip.qs[..n] ==> q == trip.base
    requires Place(trip, q) == [] || !UnderAny(Place(trip, q), trip.out)
    ensures Place(trip, q) in t' && t'[Place(trip, q)].Dir?
  {
    var x := Place(trip, q);
    Landing(trip, q);
    assert q == trip.base ==> x == trip.dest;
    assert x == [] ==> x == trip.dest;
    assert MirrorsAt(trip, n, t', x);
  }

  /** Where a listed path lands is new, and its directory is already there. */
  lemma PlaceIsReady(trip: Trip, i: nat, t': Tree)
    requires Sane(trip) && i < |trip.qs| && Mirrors(trip, i, t')
    requires trip.qs[i] != trip.base && trip.base <= trip.qs[i] && !UnderAny(Place(trip, trip.qs[i]), trip.out)
    ensures var x := Place(trip, trip.qs[i]);
            x != [] && x !in t' && Parent(x) in t' && t'[Parent(x)].Dir?
  {
    var q := trip.qs[i];
    if |q| == |trip.base| {
      SamePath(trip.base, q);
    }
    Landing(trip, q);
    PlaceIsFree(trip, i, t', q);
    if q == trip.p {
      BaseNotListed(trip);
      assert trip.base !in trip.qs[..i];
    } else {
      ParentListedBefore(trip, i);
    }
    DirIsNotExcluded(Place(trip, q), trip.out);
    DirIsThere(trip, i, t', Parent(q));
  }

  lemma BaseNotListed(trip: Trip)
    requires Archived(trip) && |trip.base| < |trip.p|
    ensures trip.base !in trip.qs
  {
  }

  lemma ParentListedBefore(trip: Trip, i: nat)
    requires Archived(trip) && i < |trip.qs| && trip.qs[i] != trip.p
    ensures Parent(trip.qs[i]) in trip.qs[..i] && Parent(trip.qs[i]) in trip.t && trip.t[Parent(trip.qs[i])].Dir?
  {
    var q, qs := trip.qs[i], trip.qs;
    assert q in qs && Visible(trip.t, trip.skip, trip.p, q);
    ParentIsVisible(trip.t, trip.skip, trip.p, q);
    assert Parent(q) in qs;
    var j :| 0 <= j < |qs| && qs[j] == Parent(q);
    assert qs[j] <= q && j != i;
    assert j < i;
    assert qs[..i][j] == Parent(q);
  }

  lemma ParentIsVisible(t: Tree, skip: set<Path>, p: Path, q: Path)
    requires WellFormed(t) && Visible(t, skip, p, q) && q != p
    ensures Visible(t, skip, p, Parent(q)) && t[Parent(q)].Dir? && Parent(q) != q && Parent(q) <= q
  {
    if |q| == |p| {
      SamePath(p, q);
    }
    assert p <= Parent(q) && Parent(q) <= q;
    assert forall e :: e in skip && p <= e <= Parent(q) ==> e <= q;
  }

  /** What the next entry adds: the copy of a directory or file whose place is not excluded. */
  predicate Adds(trip: Trip, q: Path) {
    q in trip.t && !trip.t[q].Link? && trip.base <= q && !UnderAny(Place(trip, q), trip.out)
  }

  lemma OneMoreCopied(trip: Trip, i: nat, x: Path)
    requires i < |trip.qs| && trip.base <= trip.qs[i]
    ensures Copied(trip, i + 1, x) <==>
            Copied(trip, i, x) || (x == Place(trip, trip.qs[i]) && Adds(trip, trip.qs[i]))
  {
    var q := trip.qs[i];
    assert trip.qs[..i + 1] == trip.qs[..i] + [q];
    if trip.dest <= x && Origin(trip, x) == q {
      assert x == trip.dest + x[|trip.dest|..];
      assert q[|trip.base|..] == x[|trip.dest|..];
    }
    Landing(trip, q);
  }

  lemma MirrorsOneMore(trip: Trip, k: nat, t': Tree)
    requires k < |trip.qs| && trip.base <= trip.qs[k] && trip.qs[k] in trip.t && Mirrors(trip, k, t')
    ensures var q := trip.qs[k];
            Mirrors(trip, k + 1, if Adds(trip, q) then t'[Place(trip, q) := trip.t[q]] else t')
  {
    var q, n := trip.qs[k], k + 1;
    var t'' := if Adds(trip, q) then t'[Place(trip, q) := trip.t[q]] else t';
    Landing(trip, q);
    forall y
      ensures MirrorsAt(trip, n, t'', y)
    {
      OneMoreCopied(trip, k, y);
      assert MirrorsAt(trip, k, t', y);
    }
  }

  /** The entry of the archived directory itself lands on dest and changes nothing. */
  lemma BaseEntry(trip: Trip, k: nat, s: State)
    requires Sane(trip) && k < |trip.qs| && trip.qs[k] == trip.base
    requires WellFormed(s.tree) && !s.failed && Mirrors(trip, k, s.tree)
    ensures !trip.t[trip.base].File? && Place(trip, trip.base) == trip.dest
    ensures MakeDirs(s, trip.dest) == s && s.tree == s.tree[trip.dest := Dir]
  {
    var base, dest := trip.base, trip.dest;
    assert base in trip.qs && Visible(trip.t, trip.skip, trip.p, base);
    if |base| < |trip.p| {
      assert false;
    }
    SamePath(trip.p, base);
    assert Origin(trip, dest) == base;
    assert MirrorsAt(trip, k, s.tree, dest);
    assert base[|base|..] == [] && dest + [] == dest;
    DirIsNotObstructed(s.tree, dest);
  }

  /** A directory or file entry that lands on a free place in an existing directory. */
  lemma NewEntry(s: State, x: Path, n: Node)
    requires WellFormed(s.tree) && !s.failed && x != [] && x !in s.tree && !n.Link?
    requires Parent(x) in s.tree && s.tree[Parent(x)].Dir?
    ensures var r := if n.Dir? then MakeDirs(s, x) else PutFile(s, x, n.content, false);
            !r.failed && r.tree == s.tree[x := n] && r.skippedLinks == s.skippedLinks
  {
    if n.Dir? {
      MakeOneDir(s, x);
    } else {
      DirIsNotObstructed(s.tree, Parent(x));
    }
  }

  /** What extracting the entry of a node does, for a name that is a plain relative path. */
  lemma PutProper(trip: Trip, s: State, name: seq<string>, n: Node)
    requires Proper(name) && [] in s.tree
    ensures var x := trip.dest + name;
            Put(Options(trip), s, Entry(name, KindOf(n))) ==
            if UnderAny(x, trip.out) then s
            else match n
              case Dir => MakeDirs(s, x)
              case File(content) => PutFile(s, x, content, false)
              case Link(_) => s.(skippedLinks := s.skippedLinks + 1)
  {
    ResolveProper([], name);
    assert [] + name == name;
  }

  lemma EntryEffect(trip: Trip, k: nat, s: State)
    requires Sane(trip) && k < |trip.qs|
    requires WellFormed(s.tree) && !s.failed && Mirrors(trip, k, s.tree)
    ensures trip.base <= trip.qs[k] && trip.qs[k] in trip.t
    ensures var q := trip.qs[k];
            var r := Put(Options(trip), s, trip.es[k]);
            && !r.failed
            && r.tree == (if Adds(trip, q) then s.tree[Place(trip, q) := trip.t[q]] else s.tree)
            && r.skippedLinks == s.skippedLinks + if CountsAsLink(trip, q) then 1 else 0
  {
    var q := trip.qs[k];
    var name := q[|trip.base|..];
    assert forall i :: |trip.base| <= i < |q| ==> name[i - |trip.base|] == q[i];
    PutProper(trip, s, name, trip.t[q]);
    if q == trip.base {
      BaseEntry(trip, k, s);
    } else if Adds(trip, q) {
      PlaceIsReady(trip, k, s.tree);
      NewEntry(s, Place(trip, q), trip.t[q]);
    }
  }

  /** After i entries the destination mirrors the first i listed paths. */
  lemma {:induction false} MirrorsSoFar(trip: Trip, i: nat)
    requires Sane(trip) && i <= |trip.qs|
    ensures var r := PutAll(Options(trip), State(trip.t0, [], [], 0, false), trip.es[..i]);
            && !r.failed && WellFormed(r.tree) && LinkFree(r.tree)
            && Mirrors(trip, i, r.tree) && r.skippedLinks == |Links(trip, i)|
  {
    if i > 0 {
      var k, start := i - 1, State(trip.t0, [], [], 0, false);
      MirrorsSoFar(trip, k);
      var before := PutAll(Options(trip), start, trip.es[..k]);
      assert trip.es[..i][..k] == trip.es[..k];
      PutKeepsTree(Options(trip), before, trip.es[k]);
      EntryEffect(trip, k, before);
      MirrorsOneMore(trip, k, before.tree);
      LinksOneMore(trip, k);
    }
  }

  /** What the round trip leaves at x: the copy of a directory or file that the archive held and the
      extraction did not exclude, or what was there before. */
  ghost predicate Restored(trip: Trip, t': Tree, x: Path) {
    if trip.dest <= x && Visible(trip.t, trip.skip, trip.p, Origin(trip, x)) && !trip.t[Origin(trip, x)].Link? && !UnderAny(x, trip.out)
    then x in t' && t'[x] == trip.t[Origin(trip, x)]
    else SameAt(trip.t0, t', x)
  }

  /** Extracting an archive of p, as WriteArchive makes it, into an empty directory gives back
      exactly the tree, without what either side excludes and without symlinks, and counts the
      symlinks that were not excluded. */
  lemma RoundTrip(trip: Trip, linkToFile: bool)
    requires WellFormed(trip.t) && WellNamed(trip.t) && EmptyDir(trip.t0, trip.dest)
    requires trip.base == NameBase(trip.t, trip.p, linkToFile)
    requires Lists(trip.t, trip.skip, trip.p, trip.qs) && EntriesOf(trip.t, trip.base, trip.qs, trip.es)
    ensures var r := PutAll(Options(trip), State(trip.t0, [], [], 0, false), trip.es);
            && !r.failed
            && (forall x :: Restored(trip, r.tree, x))
            && r.skippedLinks == |set q | q in trip.t && Visible(trip.t, trip.skip, trip.p, q) && CountsAsLink(trip, q)|
  {
    var n := |trip.qs|;
    if trip.p == [] {
      assert trip.t[trip.p].Dir?;
    }
    assert Archived(trip);
    MirrorsSoFar(trip, n);
    assert trip.qs[..n] == trip.qs && trip.es[..n] == trip.es;
    assert Links(trip, n) == (set q | q in trip.t && Visible(trip.t, trip.skip, trip.p, q) && CountsAsLink(trip, q));
    var r := PutAll(Options(trip), State(trip.t0, [], [], 0, false), trip.es);
    forall x
      ensures Restored(trip, r.tree, x)
    {
      assert MirrorsAt(trip, n, r.tree, x);
    }
  }

  /** No exclusion of the archive lies on the way from p to q. */
  ghost predicate Taken(trip: Trip, q: Path) {
    forall e :: e in trip.skip && trip.p <= e ==> !(e <= q)
  }

  /** No exclusion of the extraction is at or above x; the file system root does not count. */
  ghost predicate Kept(trip: Trip, x: Path) {
    forall e :: e in trip.out && e != [] ==> !(e <= x)
  }

  lemma KeptMeans(trip: Trip, x: Path)
    requires x != []
    ensures Kept(trip, x) <==> !UnderAny(x, trip.out)
  {
    if UnderAny(x, trip.out) {
      var i :| 0 <= i < |trip.out| && (x == trip.out[i] || (trip.out[i] != [] && trip.out[i] <= x));
      assert trip.out[i] in trip.out && trip.out[i] <= x;
    } else {
      forall e | e in trip.out && e != []
        ensures !(e <= x)
      {
        var i :| 0 <= i < |trip.out| && trip.out[i] == e;
      }
    }
  }

  /** The result of extracting the archive. */
  ghost function Result(trip: Trip): Tree
    requires EmptyDir(trip.t0, trip.dest)
  {
    PutAll(Options(trip), State(trip.t0, [], [], 0, false), trip.es).tree
  }

  /** An archive of p as WriteArchive makes it, and an empty directory to extract it into. */
  ghost predicate Ready(trip: Trip, linkToFile: bool) {
    && WellFormed(trip.t) && WellNamed(trip.t) && EmptyDir(trip.t0, trip.dest)
    && trip.base == NameBase(trip.t, trip.p, linkToFile)
    && Lists(trip.t, trip.skip, trip.p, trip.qs) && EntriesOf(trip.t, trip.base, trip.qs, trip.es)
  }

  /** Extracting the archive of a directory p makes dest a copy of it: below dest there is, for each q,
      what p + q was, unless that was a symlink or one of the two sides excluded it, and nothing else. */
  lemma DirectoryRoundTrip(trip: Trip, linkToFile: bool, q: Path)
    requires Ready(trip, linkToFile) && trip.p in trip.t && trip.t[trip.p].Dir? && q != []
    ensures var t', x, from := Result(trip), trip.dest + q, trip.p + q;
            if from in trip.t && !trip.t[from].Link? && Taken(trip, from) && Kept(trip, x)
            then x in t' && t'[x] == trip.t[from]
            else x !in t'
  {
    RoundTrip(trip, linkToFile);
    CopyOfDirectory(trip, Result(trip), q);
  }

  lemma CopyOfDirectory(trip: Trip, t': Tree, q: Path)
    requires EmptyDir(trip.t0, trip.dest) && trip.base == trip.p && q != [] && Restored(trip, t', trip.dest + q)
    ensures var x, from := trip.dest + q, trip.p + q;
            if from in trip.t && !trip.t[from].Link? && Taken(trip, from) && Kept(trip, x)
            then x in t' && t'[x] == trip.t[from]
            else x !in t'
  {
    var x, from := trip.dest + q, trip.p + q;
    assert Origin(trip, x) == from && |x| > |trip.dest|;
    KeptMeans(trip, x);
    assert Visible(trip.t, trip.skip, trip.p, from) <==> from in trip.t && Taken(trip, from);
  }

  /** Extracting the archive of a single file makes it a file of dest under its own name, and nothing
      else there. */
  lemma FileRoundTrip(trip: Trip, linkToFile: bool, q: Path)
    requires Ready(trip, linkToFile) && trip.p in trip.t && trip.t[trip.p].File? && q != []
    ensures var t', x := Result(trip), trip.dest + q;
            if q == [trip.p[|trip.p| - 1]] && trip.p !in trip.skip && Kept(trip, x)
            then x in t' && t'[x] == trip.t[trip.p]
            else x !in t'
  {
    RoundTrip(trip, linkToFile);
    CopyOfFile(trip, Result(trip), q);
  }

  lemma CopyOfFile(trip: Trip, t': Tree, q: Path)
    requires WellFormed(trip.t) && trip.p in trip.t && trip.t[trip.p].File? && q != []
    requires EmptyDir(trip.t0, trip.dest) && trip.base == Parent(trip.p) && Restored(trip, t', trip.dest + q)
    ensures var x := trip.dest + q;
            if q == [trip.p[|trip.p| - 1]] && trip.p !in trip.skip && Kept(trip, x)
            then x in t' && t'[x] == trip.t[trip.p]
            else x !in t'
  {
    var x, from := trip.dest + q, Parent(trip.p) + q;
    assert Origin(trip, x) == from && |x| > |trip.dest|;
    KeptMeans(trip, x);
    OnlyTheFile(trip, q);
  }

  lemma OnlyItself(skip: set<Path>, p: Path)
    ensures Excluded(skip, p, p) <==> p in skip
  {
    forall e | e in skip && p <= e <= p
      ensures e == p
    {
      SamePath(p, e);
    }
  }

  lemma SameTail(base: Path, q: Path, r: Path)
    requires base + q == base + r
    ensures q == r
  {
    assert q == (base + q)[|base|..] && r == (base + r)[|base|..];
  }

  lemma OnlyTheFile(trip: Trip, q: Path)
    requires WellFormed(trip.t) && trip.p in trip.t && trip.t[trip.p].File? && q != []
    ensures Visible(trip.t, trip.skip, trip.p, Parent(trip.p) + q) <==> q == [trip.p[|trip.p| - 1]] && trip.p !in trip.skip
    ensures q == [trip.p[|trip.p| - 1]] ==> Parent(trip.p) + q == trip.p
  {
    var base, name := Parent(trip.p), trip.p[|trip.p| - 1];
    var from := base + q;
    assert trip.p == base + [name];
    if trip.p <= from && from in trip.t {
      AncestorExists(trip.t, trip.p, from);
      assert from == base + [name];
      SameTail(base, q, [name]);
    }
    OnlyItself(trip.skip, trip.p);
  }
}
