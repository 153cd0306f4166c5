/** Archives of internal/artifact (rooted.go, targz.go): a tree of directories, files and symlinks
    written as a sequence of entries, and entries extracted into a tree.

    A path is its sequence of segments from the file system root. Destination trees hold no
    symlinks, so that a path names what its segments say.
  */
module FileTree {
  import opened Common

  datatype Node = Dir | File(content: string) | Link(target: string)

  type Tree = map<Path, Node>

  /** The root is a directory, and whatever exists is in a directory. */
  ghost predicate WellFormed(t: Tree) {
    && [] in t && t[[]].Dir?
    && forall p :: p in t && p != [] ==> Parent(p) in t && t[Parent(p)].Dir?
  }

  ghost predicate LinkFree(t: Tree) {
    forall p :: p in t ==> !t[p].Link?
  }

  /** filepath.Dir: the root is its own parent. */
  function Parent(p: Path): Path {
    if p == [] then [] else p[..|p| - 1]
  }

  /** Whatever lies on the way to something that exists is a directory. */
  lemma {:induction false} AncestorsAreDirs(t: Tree, p: Path, i: nat)
    requires WellFormed(t) && p in t && i < |p|
    ensures p[..i] in t && t[p[..i]].Dir?
  {
    if i < |p| - 1 {
      AncestorsAreDirs(t, Parent(p), i);
      assert Parent(p)[..i] == p[..i];
    }
  }

  lemma AncestorExists(t: Tree, a: Path, q: Path)
    requires WellFormed(t) && q in t && a <= q
    ensures a in t && (a != q ==> t[a].Dir?)
  {
    assert q[..|a|] == a;
    if |a| < |q| {
      AncestorsAreDirs(t, q, |a|);
    } else {
      SamePath(a, q);
    }
  }

  lemma SamePath(p: Path, q: Path)
    requires p <= q && |p| == |q|
    ensures p == q
  {
  }

  // ---------------------------------------------------------------------------------------
  // Making directories
  // ---------------------------------------------------------------------------------------

  /** Something other than a directory is in the way. */
  predicate Obstructed(t: Tree, dir: Path) {
    exists i :: 0 <= i <= |dir| && dir[..i] in t && !t[dir[..i]].Dir?
  }

  /** os.MkdirAll, when nothing obstructs it. */
  function WithDirs(t: Tree, dir: Path): Tree {
    t + map i | 0 <= i <= |dir| && dir[..i] !in t :: dir[..i] := Dir
  }

  lemma WithDirsKeys(t: Tree, dir: Path, q: Path)
    ensures q in WithDirs(t, dir) <==> q in t || q <= dir
    ensures q in WithDirs(t, dir) ==> WithDirs(t, dir)[q] == if q in t then t[q] else Dir
  {
    if q <= dir {
      assert q == dir[..|q|];
    }
  }

  lemma WithDirsWellFormed(t: Tree, dir: Path)
    requires WellFormed(t) && !Obstructed(t, dir)
    ensures WellFormed(WithDirs(t, dir))
    ensures LinkFree(t) ==> LinkFree(WithDirs(t, dir))
  {
    var t' := WithDirs(t, dir);
    forall q | q in t' && q != []
      ensures Parent(q) in t' && t'[Parent(q)].Dir?
    {
      WithDirsKeys(t, dir, q);
      WithDirsKeys(t, dir, Parent(q));
      if q !in t {
        assert Parent(q) == dir[..|q| - 1];
      }
    }
    WithDirsKeys(t, dir, []);
    forall q | q in t'
      ensures t'[q].Link? ==> q in t && t[q].Link?
    {
      WithDirsKeys(t, dir, q);
    }
  }

  lemma DirIsNotObstructed(t: Tree, dir: Path)
    requires WellFormed(t) && dir in t && t[dir].Dir?
    ensures !Obstructed(t, dir)
  {
    forall i | 0 <= i <= |dir| && dir[..i] in t
      ensures t[dir[..i]].Dir?
    {
      AncestorExists(t, dir[..i], dir);
    }
  }

  /** The top-most missing directory on the way to dir. */
  function TopMissing(t: Tree, dir: Path): (top: Path)
    requires dir !in t && [] in t
    ensures top <= dir && top !in t && top != [] && Parent(top) in t
  {
    if Parent(dir) in t then dir else TopMissing(t, Parent(dir))
  }

  /** Everything MkdirAll creates is at or below it. */
  lemma MissingBelowTop(t: Tree, dir: Path, q: Path)
    requires WellFormed(t) && dir !in t
    requires q <= dir && q !in t
    ensures TopMissing(t, dir) <= q
  {
    var top := TopMissing(t, dir);
    if |q| < |top| {
      assert q == top[..|q|];
      AncestorExists(t, q, Parent(top));
    }
  }
}

module ArchiveWriting {
  import opened Common
  import opened FileTree
  import opened Sorting

  datatype Kind =
    | DirEntry
    | FileEntry(content: string, truncated: bool)
    | SymlinkEntry
    | HardlinkEntry

  /** name: the segments of the entry's slash-separated name, as written. */
  datatype Entry = Entry(name: seq<string>, kind: Kind)

  function KindOf(n: Node): Kind {
    match n
    case Dir => DirEntry
    case File(content) => FileEntry(content, false)
    case Link(_) => SymlinkEntry
  }

  function EntryOf(t: Tree, base: Path, q: Path): Entry
    requires base <= q && q in t
  {
    Entry(q[|base|..], KindOf(t[q]))
  }

  /** An excluded path lies on the way from p to q, both included. */
  ghost predicate Excluded(skip: set<Path>, p: Path, q: Path) {
    exists e :: e in skip && p <= e <= q
  }

  /** What an archive of p holds: everything at or below p outside excluded subtrees. */
  ghost predicate Visible(t: Tree, skip: set<Path>, p: Path, q: Path) {
    q in t && p <= q && !Excluded(skip, p, q)
  }

  ghost predicate ParentsFirst(qs: seq<Path>) {
    forall i, j :: 0 <= i < j < |qs| ==> !(qs[j] <= qs[i])
  }

  /** qs lists exactly what an archive of p holds, each path once, every directory before what is
      in it. */
  ghost predicate Lists(t: Tree, skip: set<Path>, p: Path, qs: seq<Path>) {
    ParentsFirst(qs) && forall q :: q in qs <==> Visible(t, skip, p, q)
  }

  /** The entries of the listed paths, in that order. */
  ghost predicate EntriesOf(t: Tree, base: Path, qs: seq<Path>, es: seq<Entry>) {
    && |es| == |qs|
    && forall i :: 0 <= i < |qs| ==> base <= qs[i] && qs[i] in t && es[i] == EntryOf(t, base, qs[i])
  }

  function Below(t: Tree, p: Path): set<Path> {
    set q | q in t && p <= q
  }

  function Children(t: Tree, p: Path): set<string> {
    set q | q in t && p <= q && |q| == |p| + 1 :: q[|p|]
  }

  /** The part of a listing of p done when the children `left` still have to be visited. */
  ghost predicate ListsSoFar(t: Tree, skip: set<Path>, p: Path, left: set<string>, qs: seq<Path>) {
    && ParentsFirst(qs)
    && forall q :: q in qs <==> Visible(t, skip, p, q) && (|q| > |p| ==> q[|p|] !in left)
  }

  lemma VisibleInChild(t: Tree, skip: set<Path>, p: Path, n: string, q: Path)
    requires p !in skip
    ensures Visible(t, skip, p + [n], q) <==> Visible(t, skip, p, q) && |q| > |p| && q[|p|] == n
  {
    var c := p + [n];
    if p <= q && |q| > |p| && q[|p|] == n {
      assert c <= q;
      forall e | e in skip && p <= e <= q
        ensures c <= e
      {
        if |e| == |p| {
          SamePath(p, e);
        }
        assert e == q[..|e|];
      }
    }
  }

  lemma OneMoreChild(t: Tree, skip: set<Path>, p: Path, left: set<string>, n: string, qs: seq<Path>, more: seq<Path>)
    requires p !in skip && n in left
    requires ListsSoFar(t, skip, p, left, qs) && Lists(t, skip, p + [n], more)
    ensures ListsSoFar(t, skip, p, left - {n}, qs + more)
  {
    forall q
      ensures q in more <==> Visible(t, skip, p, q) && |q| > |p| && q[|p|] == n
    {
      VisibleInChild(t, skip, p, n, q);
    }
    forall i, j | 0 <= i < j < |qs + more|
      ensures !((qs + more)[j] <= (qs + more)[i])
    {
      if i < |qs| <= j {
        var a, b := qs[i], more[j - |qs|];
        assert a in qs && b in more;
      }
    }
  }

  lemma ListsWhenDone(t: Tree, skip: set<Path>, p: Path, qs: seq<Path>)
    requires ListsSoFar(t, skip, p, {}, qs)
    ensures Lists(t, skip, p, qs)
  {
  }

  lemma ListsStart(t: Tree, skip: set<Path>, p: Path)
    requires WellFormed(t) && p in t && p !in skip
    ensures ListsSoFar(t, skip, p, Children(t, p), [p])
  {
    forall q
      ensures q in [p] <==> Visible(t, skip, p, q) && (|q| > |p| ==> q[|p|] !in Children(t, p))
    {
      if q in t && p <= q && |q| > |p| {
        var c := q[..|p| + 1];
        if |c| < |q| {
          AncestorsAreDirs(t, q, |p| + 1);
        } else {
          assert c == q;
        }
        assert c in t && p <= c && c[|p|] == q[|p|];
      } else if p <= q && |q| == |p| {
        SamePath(p, q);
        assert forall e :: p <= e <= p ==> |e| == |p| && e == p[..|e|];
        assert p[..|p|] == p;
      }
    }
  }

  lemma NoChildrenUnlessDir(t: Tree, p: Path)
    requires WellFormed(t) && p in t && !t[p].Dir?
    ensures Children(t, p) == {}
  {
    assert forall q :: q in t && p <= q && |q| == |p| + 1 ==> Parent(q) == p;
  }

  lemma FewerBelow(t: Tree, p: Path, n: string)
    requires p in t
    ensures Below(t, p + [n]) < Below(t, p)
  {
    assert p in Below(t, p) && p !in Below(t, p + [n]);
  }

  lemma MoreEntries(t: Tree, base: Path, qs: seq<Path>, es: seq<Entry>, moreQs: seq<Path>, more: seq<Entry>)
    requires EntriesOf(t, base, qs, es) && EntriesOf(t, base, moreQs, more)
    ensures EntriesOf(t, base, qs + moreQs, es + more)
  {
  }

  // ---------------------------------------------------------------------------------------
  // The order of the walk
  // ---------------------------------------------------------------------------------------

  /** Segment by segment, a directory before what is in it. */
  predicate Before(a: Path, b: Path) {
    b != [] && (a == [] || Less(a[0], b[0]) || (a[0] == b[0] && Before(a[1..], b[1..])))
  }

  ghost predicate InOrder(qs: seq<Path>) {
    forall i, j :: 0 <= i < j < |qs| ==> Before(qs[i], qs[j])
  }

  lemma {:induction false} BeforeOneWay(a: Path, b: Path)
    ensures Before(a, b) ==> a != b && !Before(b, a)
    decreases |a|
  {
    if a != [] && b != [] {
      Trichotomy(a[0], b[0]);
      BeforeOneWay(a[1..], b[1..]);
    }
  }

  lemma {:induction false} DirBeforeContents(p: Path, q: Path)
    requires p <= q && |p| < |q|
    ensures Before(p, q)
  {
    if p != [] {
      DirBeforeContents(p[1..], q[1..]);
    }
  }

  lemma {:induction false} SiblingsInOrder(p: Path, m: string, n: string, a: Path, b: Path)
    requires Less(m, n) && p + [m] <= a && p + [n] <= b
    ensures Before(a, b)
    decreases |p|
  {
    if p != [] {
      var pm, pn := p + [m], p + [n];
      assert pm[1..] == p[1..] + [m] && pn[1..] == p[1..] + [n];
      assert a[0] == pm[0] == p[0] && b[0] == pn[0] == p[0];
      SiblingsInOrder(p[1..], m, n, a[1..], b[1..]);
    } else {
      assert a[0] == (p + [m])[0] && b[0] == (p + [n])[0];
    }
  }

  /** What the walk of p has listed after the children names[..i], in order. */
  ghost predicate InOrderUpTo(p: Path, names: seq<string>, i: nat, qs: seq<Path>)
    requires i <= |names|
  {
    InOrder(qs) && forall k :: 0 <= k < |qs| ==> qs[k] == p || ThroughChild(p, names[..i], qs[k])
  }

  ghost predicate ThroughChild(p: Path, names: seq<string>, q: Path) {
    exists n :: n in names && p + [n] <= q
  }

  lemma OneMoreInOrder(p: Path, names: seq<string>, i: nat, qs: seq<Path>, more: seq<Path>)
    requires Ascending(names) && i < |names| && InOrderUpTo(p, names, i, qs)
    requires InOrder(more) && forall k :: 0 <= k < |more| ==> p + [names[i]] <= more[k]
    ensures InOrderUpTo(p, names, i + 1, qs + more)
  {
    forall k, m | 0 <= k < |qs| && 0 <= m < |more|
      ensures Before(qs[k], more[m])
    {
      if qs[k] == p {
        assert p <= p + [names[i]];
        DirBeforeContents(p, more[m]);
      } else {
        assert ThroughChild(p, names[..i], qs[k]);
        var n :| n in names[..i] && p + [n] <= qs[k];
        SiblingsInOrder(p, n, names[i], qs[k], more[m]);
      }
    }
    forall k | 0 <= k < |qs + more|
      ensures (qs + more)[k] == p || ThroughChild(p, names[..i + 1], (qs + more)[k])
    {
      assert names[..i + 1] == names[..i] + [names[i]];
      if k < |qs| && qs[k] != p {
        assert ThroughChild(p, names[..i], qs[k]);
        var n :| n in names[..i] && p + [n] <= qs[k];
        assert n in names[..i + 1];
      }
    }
  }

  /** There is only one listing in order, so an archive depends on nothing but the tree. */
  lemma {:induction false} InOrderIsUnique(qs: seq<Path>, rs: seq<Path>)
    requires InOrder(qs) && InOrder(rs) && forall q :: q in qs <==> q in rs
    ensures qs == rs
  {
    assert (qs != [] ==> qs[0] in qs) && (rs != [] ==> rs[0] in rs);
    if qs != [] {
      FirstIsLeast(qs, rs);
      FirstIsLeast(rs, qs);
      BeforeOneWay(qs[0], rs[0]);
      SameRest(qs, rs);
      InOrderIsUnique(qs[1..], rs[1..]);
    }
  }

  lemma FirstIsLeast(qs: seq<Path>, rs: seq<Path>)
    requires InOrder(qs) && qs != [] && rs != [] && forall q :: q in qs <==> q in rs
    ensures qs[0] == rs[0] || Before(qs[0], rs[0])
  {
    assert rs[0] in qs;
    var i :| 0 <= i < |qs| && qs[i] == rs[0];
  }

  lemma SameRest(qs: seq<Path>, rs: seq<Path>)
    requires InOrder(qs) && InOrder(rs) && qs != [] && rs != [] && qs[0] == rs[0]
    requires forall q :: q in qs <==> q in rs
    ensures forall q :: q in qs[1..] <==> q in rs[1..]
  {
    BeforeOneWay(qs[0], qs[0]);
    forall q
      ensures q in qs[1..] <==> q in qs && q != qs[0]
      ensures q in rs[1..] <==> q in rs && q != qs[0]
    {
    }
  }

  // ---------------------------------------------------------------------------------------
  // The walk
  // ---------------------------------------------------------------------------------------

  /** The recursive walk of WriteTarZstdIn. */
  method Walk(t: Tree, base: Path, p: Path, skip: set<Path>) returns (es: seq<Entry>, ghost qs: seq<Path>)
    requires WellFormed(t) && base <= p && (p in t || p in skip)
    ensures p in skip ==> es == [] && qs == []
    ensures Lists(t, skip, p, qs) && InOrder(qs) && EntriesOf(t, base, qs, es)
    decreases Below(t, p), 1
  {
    if p in skip {
      es, qs := [], [];
      assert forall q :: p <= q ==> p <= p <= q && Excluded(skip, p, q);
      return;
    }
    es, qs := [EntryOf(t, base, p)], [p];
    ListsStart(t, skip, p);
    if t[p].Dir? {
      var names := SortedElements(Children(t, p));
      ghost var left := Children(t, p);
      for i := 0 to |names|
        invariant left <= Children(t, p) && forall n :: n in left <==> n in names[i..]
        invariant ListsSoFar(t, skip, p, left, qs) && EntriesOf(t, base, qs, es)
        invariant InOrderUpTo(p, names, i, qs)
      {
        assert names[i] in names[i..];
        es, qs := WalkChild(t, base, p, skip, names, i, left, es, qs);
        NextLeft(names, i, left);
        left := left - {names[i]};
      }
      assert left == {};
    } else {
      NoChildrenUnlessDir(t, p);
    }
    ListsWhenDone(t, skip, p, qs);
  }

  lemma NextLeft(names: seq<string>, i: nat, left: set<string>)
    requires Ascending(names) && i < |names| && forall n :: n in left <==> n in names[i..]
    ensures forall n :: n in left - {names[i]} <==> n in names[i + 1..]
  {
    assert names[i..] == [names[i]] + names[i + 1..];
    forall k | i < k < |names|
      ensures names[k] != names[i]
    {
      Trichotomy(names[i], names[k]);
    }
  }

  lemma ChildExists(t: Tree, p: Path, n: string)
    requires n in Children(t, p)
    ensures p + [n] in t
  {
    var c :| c in t && p <= c && |c| == |p| + 1 && c[|p|] == n;
    assert c == p + [n];
  }

  lemma ListedBelow(t: Tree, skip: set<Path>, p: Path, qs: seq<Path>)
    requires Lists(t, skip, p, qs)
    ensures forall k :: 0 <= k < |qs| ==> p <= qs[k]
  {
    forall k | 0 <= k < |qs|
      ensures p <= qs[k]
    {
      assert qs[k] in qs;
    }
  }

  /** One turn of the walk's loop over the children of p. */
  method WalkChild(t: Tree, base: Path, p: Path, skip: set<Path>, names: seq<string>, i: nat, ghost left: set<string>,
                   before: seq<Entry>, ghost beforeQs: seq<Path>)
    returns (es: seq<Entry>, ghost qs: seq<Path>)
    requires WellFormed(t) && base <= p && p in t && p !in skip
    requires Ascending(names) && i < |names| && names[i] in left && names[i] in Children(t, p)
    requires ListsSoFar(t, skip, p, left, beforeQs) && EntriesOf(t, base, beforeQs, before)
    requires InOrderUpTo(p, names, i, beforeQs)
    ensures ListsSoFar(t, skip, p, left - {names[i]}, qs) && EntriesOf(t, base, qs, es)
    ensures InOrderUpTo(p, names, i + 1, qs)
    decreases Below(t, p), 0
  {
    var n := names[i];
    ChildExists(t, p, n);
    FewerBelow(t, p, n);
    var more, moreQs := Walk(t, base, p + [n], skip);
    OneMoreChild(t, skip, p, left, n, beforeQs, moreQs);
    MoreEntries(t, base, beforeQs, before, moreQs, more);
    ListedBelow(t, skip, p + [n], moreQs);
    OneMoreInOrder(p, names, i, beforeQs, moreQs);
    es, qs := before + more, beforeQs + moreQs;
  }

  /** The directory entries are named relative to: p itself, or its parent if following p finds
      something that is not a directory. For a symlink, linkToFile says that it does: one that leads
      to a directory, to nothing or out of the root does not. */
  function NameBase(t: Tree, p: Path, linkToFile: bool): Path {
    if p in t && (t[p].File? || (t[p].Link? && linkToFile)) then Parent(p) else p
  }

  /** WriteTarZstdIn, with root and path absolute and clean. */
  method WriteArchive(t: Tree, root: Path, p: Path, exclude: set<Path>, linkToFile: bool)
    returns (r: Result<seq<Entry>>, ghost qs: seq<Path>)
    requires WellFormed(t)
    ensures r.Ok? <==> root in t && t[root].Dir? && root <= p && (p in t || p in exclude)
    ensures r.Ok? ==> Lists(t, exclude, p, qs) && InOrder(qs) && EntriesOf(t, NameBase(t, p, linkToFile), qs, r.value)
  {
    qs := [];
    if root !in t || !t[root].Dir? {
      return Err("cannot open the root"), qs;
    }
    if !(root <= p) {
      return Err("path is outside the root"), qs;
    }
    if p !in exclude && p !in t {
      return Err("no such file"), qs;
    }
    var es;
    es, qs := Walk(t, NameBase(t, p, linkToFile), p, exclude);
    r := Ok(es);
  }

  /** What an entry of the archive says of its path: its place below the base, a directory as a
      directory, a file with its whole content, and a symlink as a symlink, without following it. */
  lemma EntriesTell(t: Tree, base: Path, qs: seq<Path>, es: seq<Entry>, i: nat)
    requires EntriesOf(t, base, qs, es) && i < |es|
    ensures qs[i] == base + es[i].name && qs[i] in t
    ensures match es[i].kind
            case DirEntry => t[qs[i]] == Dir
            case FileEntry(content, truncated) => t[qs[i]] == File(content) && !truncated
            case SymlinkEntry => t[qs[i]].Link?
            case HardlinkEntry => false
  {
    assert qs[i] == base + qs[i][|base|..];
  }

  /** The same tree and the same exclusions always give the same archive. */
  lemma ArchiveIsDetermined(t: Tree, skip: set<Path>, p: Path, base: Path, qs: seq<Path>, es: seq<Entry>, rs: seq<Path>, fs: seq<Entry>)
    requires Lists(t, skip, p, qs) && InOrder(qs) && EntriesOf(t, base, qs, es)
    requires Lists(t, skip, p, rs) && InOrder(rs) && EntriesOf(t, base, rs, fs)
    ensures es == fs
  {
    InOrderIsUnique(qs, rs);
  }
}
