/** Extraction of internal/artifact (rooted.go) and its record of what it created (written.go). */
module Extraction {
  import opened Common
  import opened FileTree
  import opened ArchiveWriting
  import opened Sorting

  /** filepath.Join of a path below the root and an entry's name, cleaned; None when the result
      climbs out of the root. */
  function Resolve(at: Path, name: seq<string>): Option<Path>
    decreases |name|
  {
    if name == [] then Some(at)
    else if name[0] == "" || name[0] == "." then Resolve(at, name[1..])
    else if name[0] == ".." then if at == [] then None else Resolve(Parent(at), name[1..])
    else Resolve(at + [name[0]], name[1..])
  }

  /** How much deeper one segment of a name leads. */
  function Deeper(segment: string): int {
    if segment == "" || segment == "." then 0 else if segment == ".." then -1 else 1
  }

  function Net(name: seq<string>): int {
    if name == [] then 0 else Deeper(name[0]) + Net(name[1..])
  }

  /** At some point the name has gone up further than it ever came down. */
  ghost predicate ClimbsOut(at: Path, name: seq<string>) {
    exists i :: 0 <= i <= |name| && |at| + Net(name[..i]) < 0
  }

  /** A name is refused exactly if it climbs out of the root at some point. */
  lemma {:induction false} RefusedIffClimbsOut(at: Path, name: seq<string>)
    ensures Resolve(at, name).None? <==> ClimbsOut(at, name)
    decreases |name|
  {
    if name == [] {
      assert forall i :: 0 <= i <= |name| ==> name[..i] == [];
    } else {
      var d, rest := Deeper(name[0]), name[1..];
      assert name[..0] == [];
      forall i | 1 <= i <= |name|
        ensures Net(name[..i]) == d + Net(rest[..i - 1])
      {
        assert name[..i][1..] == rest[..i - 1];
      }
      if |at| + d < 0 {
        assert rest[..0] == [] && |at| + Net(name[..1]) < 0;
      } else {
        var next := if d == 0 then at else if d < 0 then Parent(at) else at + [name[0]];
        RefusedIffClimbsOut(next, rest);
        ClimbsOutLater(at, next, name);
      }
    }
  }

  lemma ClimbsOutLater(at: Path, next: Path, name: seq<string>)
    requires name != [] && |next| == |at| + Deeper(name[0])
    requires forall i :: 1 <= i <= |name| ==> Net(name[..i]) == Deeper(name[0]) + Net(name[1..][..i - 1])
    ensures ClimbsOut(at, name) <==> ClimbsOut(next, name[1..])
  {
    var rest := name[1..];
    if ClimbsOut(at, name) {
      var i :| 0 <= i <= |name| && |at| + Net(name[..i]) < 0;
      assert i >= 1 by {
        assert name[..0] == [];
      }
      assert |next| + Net(rest[..i - 1]) < 0;
    }
    if ClimbsOut(next, rest) {
      var i :| 0 <= i <= |rest| && |next| + Net(rest[..i]) < 0;
      assert |at| + Net(name[..i + 1]) < 0;
    }
  }

  /** A name is followed piece by piece. */
  lemma {:induction false} ResolveConcat(at: Path, a: seq<string>, b: seq<string>)
    ensures Resolve(at, a + b) == match Resolve(at, a) case None => None case Some(mid) => Resolve(mid, b)
    decreases |a|
  {
    if a == [] {
      assert a + b == b;
    } else {
      assert (a + b)[1..] == a[1..] + b;
      var next := if Deeper(a[0]) == 0 then at else if a[0] == ".." then Parent(at) else at + [a[0]];
      ResolveConcat(next, a[1..], b);
    }
  }

  /** Cleaning: going down and up again, or staying, makes no difference anywhere in a name; and a plain
      segment leads into the directory of that name. */
  lemma ResolveCleans(at: Path, a: seq<string>, x: string, b: seq<string>)
    ensures Deeper(x) == 1 ==> Resolve(at, a + [x, ".."] + b) == Resolve(at, a + b)
    ensures Deeper(x) == 0 ==> Resolve(at, a + [x] + b) == Resolve(at, a + b)
    ensures Deeper(x) == 1 ==> Resolve(at, [x]) == Some(at + [x])
  {
    ResolveConcat(at, a + [x, ".."], b);
    ResolveConcat(at, a + [x], b);
    ResolveConcat(at, a, b);
    ResolveConcat(at, a, [x, ".."]);
    ResolveConcat(at, a, [x]);
    assert [x][1..] == [] && [x, ".."][1..] == [".."] && [".."][1..] == [];
    if Resolve(at, a).Some? && Deeper(x) == 1 {
      var mid := Resolve(at, a).value;
      assert Parent(mid + [x]) == mid;
    }
  }

  /** isUnderAny. An exclusion of the file system root excludes only the root itself: appending a
      separator to "/" gives a prefix no clean path has. */
  predicate UnderAny(p: Path, skip: seq<Path>) {
    exists i :: 0 <= i < |skip| && (p == skip[i] || (skip[i] != [] && skip[i] <= p))
  }

  /** A path as the text it is sorted by. */
  function Spelled(p: Path): string {
    if p == [] then "" else Spelled(p[..|p| - 1]) + "/" + p[|p| - 1]
  }

  datatype Config = Config(root: Path, dest: Path, skip: seq<Path>, refuseLinks: bool)

  /** The disk, the Written record, the count of skipped links, and whether the extraction has
      stopped with an error. */
  datatype State = State(tree: Tree, files: seq<Path>, newDirs: seq<Path>, skippedLinks: nat, failed: bool)

  /** mkdirAllIn and Written.MkdirAll: make dir, recording the top-most directory created. */
  function MakeDirs(s: State, dir: Path): State
    requires [] in s.tree
  {
    if Obstructed(s.tree, dir) then s.(failed := true)
    else if dir in s.tree then s
    else s.(tree := WithDirs(s.tree, dir), newDirs := s.newDirs + [TopMissing(s.tree, dir)])
  }

  /** Write a file at p, recording it if it is new. Content that ends early is an error after the
      fact: the file is there and is not recorded. */
  function PutFile(s: State, p: Path, content: string, truncated: bool): State
    requires [] in s.tree
  {
    var made := MakeDirs(s, Parent(p));
    if made.failed then made
    else if p in made.tree && made.tree[p].Dir? then made.(failed := true)
    else
      var put := made.(tree := made.tree[p := File(content)]);
      if truncated then put.(failed := true)
      else if p in made.tree then put
      else put.(files := put.files + [p])
  }

  /** One entry. */
  function Put(cfg: Config, s: State, e: Entry): State
    requires [] in s.tree
  {
    match Resolve(cfg.dest, e.name)
    case None => s.(failed := true)
    case Some(rel) =>
      var p := cfg.root + rel;
      if UnderAny(p, cfg.skip) then s
      else match e.kind
        case DirEntry => MakeDirs(s, p)
        case FileEntry(content, truncated) => PutFile(s, p, content, truncated)
        case _ => if cfg.refuseLinks then s.(failed := true) else s.(skippedLinks := s.skippedLinks + 1)
  }

  /** The entries in order, up to the first error. */
  function PutAll(cfg: Config, s: State, es: seq<Entry>): (r: State)
    requires [] in s.tree
    ensures [] in r.tree
  {
    if es == [] then s
    else
      var before := PutAll(cfg, s, es[..|es| - 1]);
      if before.failed then before
      else
        PutKeepsRoot(cfg, before, es[|es| - 1]);
        Put(cfg, before, es[|es| - 1])
  }

  lemma PutKeepsRoot(cfg: Config, s: State, e: Entry)
    requires [] in s.tree
    ensures [] in Put(cfg, s, e).tree
  {
  }

  // ---------------------------------------------------------------------------------------
  // The imperative extraction
  // ---------------------------------------------------------------------------------------

  class Disk {
    var tree: Tree

    constructor (tree: Tree)
      ensures this.tree == tree
    {
      this.tree := tree;
    }

    /** os.MkdirAll: all of it or, where something is in the way, nothing. */
    method MkdirAll(dir: Path) returns (ok: bool)
      modifies this
      ensures ok <==> !Obstructed(old(tree), dir)
      ensures tree == if ok then WithDirs(old(tree), dir) else old(tree)
    {
      if Obstructed(tree, dir) {
        return false;
      }
      tree := WithDirs(tree, dir);
      return true;
    }
  }

  class Written {
    var files: seq<Path>
    var newDirs: seq<Path>

    constructor ()
      ensures files == [] && newDirs == []
    {
      files, newDirs := [], [];
    }

    /** Records a file the extraction created. */
    method File(p: Path)
      modifies this`files
      ensures files == old(files) + [p]
    {
      files := files + [p];
    }

    /** MkdirAll: looks upwards for the top-most directory it will create, creates, records. */
    method MkdirAll(disk: Disk, dir: Path) returns (ok: bool)
      requires WellFormed(disk.tree)
      modifies disk, this`newDirs
      ensures var s := MakeDirs(State(old(disk.tree), [], old(newDirs), 0, false), dir);
              disk.tree == s.tree && newDirs == s.newDirs && ok == !s.failed
    {
      var top: Option<Path> := None;
      var d := dir;
      while d !in disk.tree
        invariant d <= dir && (d == dir <==> top.None?)
        invariant top.Some? ==> d == Parent(top.value) && top.value <= dir && top.value !in disk.tree && top.value != []
        decreases |d|
      {
        top := Some(d);
        d := Parent(d);
      }
      ok := disk.MkdirAll(dir);
      if ok && top.Some? {
        TopIsTopMissing(old(disk.tree), dir, top.value);
        newDirs := newDirs + [top.value];
      } else if ok {
        WithDirsOfExisting(old(disk.tree), dir);
      }
    }

    /** Roots: what was created, without anything below a created directory, each path once, sorted. */
    method Roots() returns (out: seq<Path>)
      ensures forall p :: p in out <==> IsRoot(files, newDirs, p)
      ensures Distinct(out) && SortedBy(out, Spelled)
    {
      out := [];
      var all := newDirs + files;
      for i := 0 to |all|
        invariant forall p :: p in out <==> p in all[..i] && !Covered(newDirs, p)
        invariant Distinct(out)
      {
        var covered := IsCovered(all[i]);
        if all[i] !in out && !covered {
          out := out + [all[i]];
        }
      }
      assert all[..|all|] == all;
      out := SortBy(out, Spelled);
    }

    /** The walk up from p looking for a created directory. */
    method IsCovered(p: Path) returns (covered: bool)
      ensures covered == Covered(newDirs, p)
    {
      var d := Parent(p);
      while true
        invariant d <= Parent(p)
        invariant forall a :: a in newDirs && d <= a <= Parent(p) ==> a == d
        decreases |d|
      {
        assert d in newDirs ==> d <= Parent(p);
        if d in newDirs {
          return true;
        }
        if Parent(d) == d {
          assert forall a :: a in newDirs ==> [] <= a;
          return false;
        }
        assert forall a :: a in newDirs && Parent(d) <= a <= Parent(p) && !(d <= a) ==> |a| < |d| && a == Parent(d);
        d := Parent(d);
      }
    }
  }

  /** A recorded directory at or above the parent of p (filepath.Dir of the root is the root). */
  ghost predicate Covered(newDirs: seq<Path>, p: Path) {
    exists a :: a in newDirs && a <= Parent(p)
  }

  ghost predicate IsRoot(files: seq<Path>, newDirs: seq<Path>, p: Path) {
    (p in newDirs || p in files) && !Covered(newDirs, p)
  }

  lemma {:induction false} TopIsTopMissing(t: Tree, dir: Path, top: Path)
    requires WellFormed(t) && top <= dir && top !in t && top != [] && Parent(top) in t
    ensures dir !in t && TopMissing(t, dir) == top
  {
    if dir in t {
      AncestorExists(t, top, dir);
    } else {
      MissingBelowTop(t, dir, top);
      var other := TopMissing(t, dir);
      if |other| < |top| {
        assert other == top[..|other|];
        AncestorExists(t, other, Parent(top));
      } else {
        SamePath(other, top);
      }
    }
  }

  lemma WithDirsOfExisting(t: Tree, dir: Path)
    requires WellFormed(t) && dir in t
    ensures WithDirs(t, dir) == t
  {
    forall q
      ensures q <= dir ==> q in t
    {
      if q <= dir {
        AncestorExists(t, q, dir);
      }
    }
    assert forall i :: 0 <= i <= |dir| ==> dir[..i] <= dir;
  }

  /** Opening the root, checking that the destination is at or below it, then the entries. */
  function Extracted(root: Path, dest: Path, skip: seq<Path>, refuseLinks: bool, s: State, es: seq<Entry>): State
    requires [] in s.tree
  {
    if !(root in s.tree && s.tree[root].Dir? && root <= dest) then s.(failed := true)
    else PutAll(Config(root, dest[|root|..], skip, refuseLinks), s, es)
  }

  /** ExtractTarZstdInWritten, with root and dest absolute and clean. */
  method Extract(root: Path, dest: Path, skip: seq<Path>, refuseLinks: bool, disk: Disk, w: Written, es: seq<Entry>)
    returns (skippedLinks: nat, ok: bool)
    requires WellFormed(disk.tree) && LinkFree(disk.tree)
    modifies disk, w
    ensures var s := Extracted(root, dest, skip, refuseLinks, State(old(disk.tree), old(w.files), old(w.newDirs), 0, false), es);
            disk.tree == s.tree && w.files == s.files && w.newDirs == s.newDirs && skippedLinks == s.skippedLinks && ok == !s.failed
  {
    if root !in disk.tree || !disk.tree[root].Dir? {
      return 0, false;
    }
    if !(root <= dest) {
      return 0, false;
    }
    skippedLinks, ok := ExtractEntries(Config(root, dest[|root|..], skip, refuseLinks), disk, w, es);
  }

  /** The loop over the archive. */
  method ExtractEntries(cfg: Config, disk: Disk, w: Written, es: seq<Entry>) returns (skippedLinks: nat, ok: bool)
    requires WellFormed(disk.tree) && LinkFree(disk.tree)
    modifies disk, w
    ensures var s := PutAll(cfg, State(old(disk.tree), old(w.files), old(w.newDirs), 0, false), es);
            disk.tree == s.tree && w.files == s.files && w.newDirs == s.newDirs && skippedLinks == s.skippedLinks && ok == !s.failed
  {
    ghost var start := State(disk.tree, w.files, w.newDirs, 0, false);
    skippedLinks := 0;
    for i := 0 to |es|
      invariant WellFormed(disk.tree) && LinkFree(disk.tree)
      invariant PutAll(cfg, start, es[..i]) == State(disk.tree, w.files, w.newDirs, skippedLinks, false)
    {
      assert es[..i + 1][..i] == es[..i];
      ghost var before := State(disk.tree, w.files, w.newDirs, skippedLinks, false);
      PutKeepsTree(cfg, before, es[i]);
      skippedLinks, ok := ExtractEntry(cfg, disk, w, es[i], skippedLinks);
      if !ok {
        FailureStays(cfg, start, es, i + 1);
        return;
      }
    }
    assert es[..|es|] == es;
    ok := true;
  }

  lemma {:induction false} FailureStays(cfg: Config, s: State, es: seq<Entry>, i: nat)
    requires [] in s.tree && i <= |es| && PutAll(cfg, s, es[..i]).failed
    ensures PutAll(cfg, s, es) == PutAll(cfg, s, es[..i])
  {
    if i == |es| {
      assert es[..i] == es;
    } else {
      assert es[..|es| - 1][..i] == es[..i];
      FailureStays(cfg, s, es[..|es| - 1], i);
    }
  }

  method ExtractEntry(cfg: Config, disk: Disk, w: Written, e: Entry, links: nat) returns (skippedLinks: nat, ok: bool)
    requires WellFormed(disk.tree)
    modifies disk, w
    ensures var s := Put(cfg, State(old(disk.tree), old(w.files), old(w.newDirs), links, false), e);
            disk.tree == s.tree && w.files == s.files && w.newDirs == s.newDirs && skippedLinks == s.skippedLinks && ok == !s.failed
  {
    skippedLinks, ok := links, true;
    var resolved := Resolve(cfg.dest, e.name);
    if resolved.None? {
      return skippedLinks, false;
    }
    var p := cfg.root + resolved.value;
    if UnderAny(p, cfg.skip) {
      return;
    }
    match e.kind
    case DirEntry =>
      ok := w.MkdirAll(disk, p);
    case FileEntry(content, truncated) =>
      ok := w.MkdirAll(disk, Parent(p));
      if !ok {
        return;
      }
      var created := p !in disk.tree;
      if !created && disk.tree[p].Dir? {
        return skippedLinks, false;
      }
      disk.tree := disk.tree[p := FileTree.Node.File(content)];
      if truncated {
        return skippedLinks, false;
      }
      if created {
        w.File(p);
      }
    case _ =>
      if cfg.refuseLinks {
        return skippedLinks, false;
      }
      skippedLinks := skippedLinks + 1;
  }

  // ---------------------------------------------------------------------------------------
  // What an extraction keeps
  // ---------------------------------------------------------------------------------------

  /** Files and directories only appear; a directory never becomes a file or the other way round. */
  ghost predicate Grows(t: Tree, t': Tree) {
    forall p :: p in t ==> p in t' && (t'[p].Dir? <==> t[p].Dir?)
  }

  lemma MakeDirsKeepsTree(s: State, dir: Path)
    requires WellFormed(s.tree) && LinkFree(s.tree)
    ensures WellFormed(MakeDirs(s, dir).tree) && LinkFree(MakeDirs(s, dir).tree) && Grows(s.tree, MakeDirs(s, dir).tree)
    ensures !MakeDirs(s, dir).failed && !s.failed ==> dir in MakeDirs(s, dir).tree && MakeDirs(s, dir).tree[dir].Dir?
  {
    if !Obstructed(s.tree, dir) {
      WithDirsWellFormed(s.tree, dir);
      WithDirsKeys(s.tree, dir, dir);
      assert dir[..|dir|] == dir;
      forall p | p in s.tree
        ensures p in WithDirs(s.tree, dir) && WithDirs(s.tree, dir)[p] == s.tree[p]
      {
        WithDirsKeys(s.tree, dir, p);
      }
    }
  }

  lemma PutFileKeepsTree(s: State, p: Path, content: string, truncated: bool)
    requires WellFormed(s.tree) && LinkFree(s.tree) && !s.failed
    ensures var t := PutFile(s, p, content, truncated).tree;
            WellFormed(t) && LinkFree(t) && Grows(s.tree, t)
  {
    MakeDirsKeepsTree(s, Parent(p));
  }

  lemma PutKeepsTree(cfg: Config, s: State, e: Entry)
    requires WellFormed(s.tree) && LinkFree(s.tree) && !s.failed
    ensures var t := Put(cfg, s, e).tree;
            WellFormed(t) && LinkFree(t) && Grows(s.tree, t)
  {
    match Resolve(cfg.dest, e.name)
    case None =>
    case Some(rel) =>
      match e.kind
      case DirEntry => MakeDirsKeepsTree(s, cfg.root + rel);
      case FileEntry(content, truncated) => PutFileKeepsTree(s, cfg.root + rel, content, truncated);
      case _ =>
  }

  ghost predicate SameAt(t: Tree, t': Tree, x: Path) {
    (x in t <==> x in t') && (x in t ==> t[x] == t'[x])
  }

  /** Making directories changes only missing ones on the way. */
  lemma MakeDirsTouches(s: State, dir: Path, x: Path)
    requires WellFormed(s.tree)
    ensures !SameAt(s.tree, MakeDirs(s, dir).tree, x) ==> x !in s.tree && x <= dir
  {
  }

  lemma PutFileTouches(s: State, p: Path, content: string, truncated: bool, x: Path)
    requires WellFormed(s.tree)
    ensures !SameAt(s.tree, PutFile(s, p, content, truncated).tree, x) ==> x <= p && (x in s.tree ==> x == p)
  {
  }

  /** Only the path an entry names, and missing directories on the way to it, change. */
  lemma PutTouchesOnly(cfg: Config, s: State, e: Entry, x: Path)
    requires WellFormed(s.tree) && !SameAt(s.tree, Put(cfg, s, e).tree, x)
    ensures Resolve(cfg.dest, e.name).Some?
    ensures var p := cfg.root + Resolve(cfg.dest, e.name).value;
            x <= p && !UnderAny(p, cfg.skip) && (x in s.tree ==> x == p)
  {
    match Resolve(cfg.dest, e.name)
    case None =>
    case Some(rel) =>
      match e.kind
      case DirEntry => MakeDirsTouches(s, cfg.root + rel, x);
      case FileEntry(content, truncated) => PutFileTouches(s, cfg.root + rel, content, truncated, x);
      case _ =>
  }

  /** Something that is not a directory lies at dir or above it. */
  ghost predicate Blocked(t: Tree, dir: Path) {
    exists a :: a in t && a <= dir && !t[a].Dir?
  }

  lemma BlockedIsObstructed(t: Tree, dir: Path)
    ensures Blocked(t, dir) <==> Obstructed(t, dir)
  {
    if Blocked(t, dir) {
      var a :| a in t && a <= dir && !t[a].Dir?;
      assert a == dir[..|a|];
    }
    if Obstructed(t, dir) {
      var i :| 0 <= i <= |dir| && dir[..i] in t && !t[dir[..i]].Dir?;
      assert dir[..i] <= dir;
    }
  }

  predicate IsLink(kind: Kind) {
    kind.SymlinkEntry? || kind.HardlinkEntry?
  }

  /** An entry whose name climbs out of the root is an error, and so is a link that is not excluded if
      links are refused; the disk is as before. A link that is not refused is counted, no more. */
  lemma LinksAndClimbers(cfg: Config, s: State, e: Entry)
    requires [] in s.tree
    ensures ClimbsOut(cfg.dest, e.name) <==> Resolve(cfg.dest, e.name).None?
    ensures ClimbsOut(cfg.dest, e.name) ==> Put(cfg, s, e) == s.(failed := true)
    ensures IsLink(e.kind) && !ClimbsOut(cfg.dest, e.name) ==>
              var p := cfg.root + Resolve(cfg.dest, e.name).value;
              Put(cfg, s, e) ==
              if UnderAny(p, cfg.skip) then s
              else if cfg.refuseLinks then s.(failed := true)
              else s.(skippedLinks := s.skippedLinks + 1)
  {
    RefusedIffClimbsOut(cfg.dest, e.name);
  }

  /** A directory entry succeeds exactly if nothing but directories is on the way, and then there is a
      directory; a file entry exactly if its content is whole, nothing but directories is above it and
      it is not a directory itself, and then its content is what the entry holds. */
  lemma EntryTakesEffect(cfg: Config, s: State, e: Entry)
    requires WellFormed(s.tree) && LinkFree(s.tree) && !s.failed
    requires !ClimbsOut(cfg.dest, e.name) && !IsLink(e.kind)
    ensures Resolve(cfg.dest, e.name).Some?
    ensures var p, r := cfg.root + Resolve(cfg.dest, e.name).value, Put(cfg, s, e);
            !UnderAny(p, cfg.skip) ==>
              match e.kind
              case FileEntry(content, truncated) =>
                && (!r.failed <==> !truncated && !Blocked(s.tree, Parent(p)) && !(p in s.tree && s.tree[p].Dir?))
                && (!r.failed ==> p in r.tree && r.tree[p] == FileTree.Node.File(content))
              case _ =>
                && (!r.failed <==> !Blocked(s.tree, p))
                && (!r.failed ==> p in r.tree && r.tree[p].Dir?)
  {
    RefusedIffClimbsOut(cfg.dest, e.name);
    var p := cfg.root + Resolve(cfg.dest, e.name).value;
    match e.kind
    case FileEntry(content, truncated) =>
      BlockedIsObstructed(s.tree, Parent(p));
      MakeDirsKeepsTree(s, Parent(p));
      MadeOnTheWay(s, Parent(p), p);
    case _ =>
      BlockedIsObstructed(s.tree, p);
      MakeDirsKeepsTree(s, p);
  }

  /** Making the parent of p makes p only if it is its own parent. */
  lemma MadeOnTheWay(s: State, dir: Path, p: Path)
    requires WellFormed(s.tree) && dir == Parent(p)
    ensures p in MakeDirs(s, dir).tree <==> p in s.tree
    ensures p in s.tree ==> MakeDirs(s, dir).tree[p] == s.tree[p]
  {
    WithDirsKeys(s.tree, dir, p);
  }

  /** An extraction succeeds only if it met no such entry. */
  lemma {:induction false} SuccessMeansNoneRefused(cfg: Config, s: State, es: seq<Entry>, i: nat)
    requires [] in s.tree && i < |es| && !PutAll(cfg, s, es).failed
    ensures !ClimbsOut(cfg.dest, es[i].name)
    ensures Resolve(cfg.dest, es[i].name).Some?
    ensures cfg.refuseLinks && IsLink(es[i].kind) ==> UnderAny(cfg.root + Resolve(cfg.dest, es[i].name).value, cfg.skip)
    ensures es[i].kind.FileEntry? && es[i].kind.truncated ==> UnderAny(cfg.root + Resolve(cfg.dest, es[i].name).value, cfg.skip)
  {
    var front, last := es[..|es| - 1], |es| - 1;
    if i < last {
      SuccessMeansNoneRefused(cfg, s, front, i);
    } else {
      LinksAndClimbers(cfg, PutAll(cfg, s, front), es[last]);
    }
  }

  /** An extraction that has opened its root. */
  ghost predicate Started(cfg: Config, s: State) {
    WellFormed(s.tree) && LinkFree(s.tree) && !s.failed && cfg.root in s.tree && s.tree[cfg.root].Dir?
  }

  /** Nothing outside the root changes, and nothing at or below an exclusion, unless the exclusion
      is the file system root. */
  lemma {:induction false} ExtractionIsConfined(cfg: Config, s: State, es: seq<Entry>, x: Path)
    requires Started(cfg, s)
    requires !(cfg.root <= x) || exists i :: 0 <= i < |cfg.skip| && cfg.skip[i] != [] && cfg.skip[i] <= x
    ensures var r := PutAll(cfg, s, es);
            WellFormed(r.tree) && LinkFree(r.tree) && Grows(s.tree, r.tree) && SameAt(s.tree, r.tree, x)
  {
    if es != [] {
      var front, e := es[..|es| - 1], es[|es| - 1];
      ExtractionIsConfined(cfg, s, front, x);
      var before := PutAll(cfg, s, front);
      if !before.failed {
        PutKeepsTree(cfg, before, e);
        if !SameAt(before.tree, Put(cfg, before, e).tree, x) {
          PutTouchesOnly(cfg, before, e, x);
          var p := cfg.root + Resolve(cfg.dest, e.name).value;
          if |x| < |cfg.root| {
            assert x == p[..|x|] == cfg.root[..|x|];
            AncestorExists(before.tree, x, cfg.root);
          }
        }
      }
    }
  }

  /** The exception is real: with the file system root excluded, a file is still written. */
  lemma ExcludingTheRootExcludesNothing(s: State, name: string)
    requires WellFormed(s.tree) && !s.failed && [name] !in s.tree && name != "" && name != "." && name != ".."
    ensures [] <= [name] && [name] in Put(Config([], [], [[]], false), s, Entry([name], FileEntry("x", false))).tree
  {
    var p: Path := [name];
    assert p[1..] == [] && [] + p == p;
    assert Resolve([], p) == Resolve(p, []) == Some(p);
    assert !UnderAny(p, [[]]);
    assert Parent(p) == [];
    NothingObstructsTheRoot(s.tree);
    assert MakeDirs(s, Parent(p)) == s;
  }

  lemma NothingObstructsTheRoot(t: Tree)
    requires WellFormed(t)
    ensures !Obstructed(t, [])
  {
  }

  /** Excluding e keeps everything at or below it as it is, in every extraction. */
  ghost predicate Protects(e: Path) {
    forall cfg: Config, s: State, es: seq<Entry>, x: Path :: Started(cfg, s) && e in cfg.skip && e <= x ==>
      SameAt(s.tree, PutAll(cfg, s, es).tree, x)
  }

  /** An exclusion protects its subtree exactly if it is not the file system root. */
  lemma ExclusionProtects(e: Path)
    ensures Protects(e) <==> e != []
  {
    if e != [] {
      forall cfg: Config, s: State, es: seq<Entry>, x: Path | Started(cfg, s) && e in cfg.skip && e <= x
        ensures SameAt(s.tree, PutAll(cfg, s, es).tree, x)
      {
        var i :| 0 <= i < |cfg.skip| && cfg.skip[i] == e;
        ExtractionIsConfined(cfg, s, es, x);
      }
    } else {
      var s, cfg, entry := State(map[[] := Dir], [], [], 0, false), Config([], [], [[]], false), Entry(["a"], FileEntry("x", false));
      ExcludingTheRootExcludesNothing(s, "a");
      assert [entry][..0] == [] && PutAll(cfg, s, []) == s;
      assert Started(cfg, s) && e in cfg.skip && e <= ["a"];
      assert PutAll(cfg, s, [entry]) == Put(cfg, s, entry);
      assert !SameAt(s.tree, PutAll(cfg, s, [entry]).tree, ["a"]);
    }
  }
}
