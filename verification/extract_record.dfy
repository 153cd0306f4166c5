/** What the Written record says after an extraction: its roots cover exactly what was created. */
module ExtractionRecord {
  import opened Common
  import opened FileTree
  import opened ArchiveWriting
  import opened Extraction

  /** A created path is explained by being a recorded file or at or below a recorded directory. */
  ghost predicate Explained(s: State, q: Path) {
    q in s.files || exists d :: d in s.newDirs && d <= q
  }

  /** Relative to the tree t0 the extraction started from, the record says the truth about q. */
  ghost predicate RecordedAt(t0: Tree, s: State, q: Path) {
    && (q in t0 ==> q in s.tree && (s.tree[q].Dir? <==> t0[q].Dir?))
    && (q in s.newDirs ==> q in s.tree && s.tree[q].Dir? && q !in t0)
    && (q in s.files ==> q in s.tree && s.tree[q].File? && q !in t0)
    && (q in s.tree && q !in t0 ==> Explained(s, q))
  }

  ghost predicate Recorded(t0: Tree, s: State) {
    forall q :: RecordedAt(t0, s, q)
  }

  ghost predicate Ready(s: State) {
    WellFormed(s.tree) && LinkFree(s.tree) && !s.failed
  }

  lemma MakeDirsRecorded(t0: Tree, s: State, dir: Path, q: Path)
    requires Ready(s) && RecordedAt(t0, s, q)
    ensures RecordedAt(t0, MakeDirs(s, dir), q)
  {
    var s' := MakeDirs(s, dir);
    if !s'.failed && dir !in s.tree {
      var top := TopMissing(s.tree, dir);
      WithDirsKeys(s.tree, dir, q);
      assert top in s'.newDirs;
      if q in s'.tree && q !in t0 {
        if q in s.tree {
          StillExplained(s, s', q);
        } else {
          MissingBelowTop(s.tree, dir, q);
        }
      }
    }
  }

  lemma StillExplained(s: State, s': State, q: Path)
    requires Explained(s, q) && s.files <= s'.files && s.newDirs <= s'.newDirs
    ensures Explained(s', q)
  {
    if q !in s.files {
      var d :| d in s.newDirs && d <= q;
      assert d in s'.newDirs;
    }
  }

  /** The one way a created path escapes the record: the content of a new file ends early, in a
      directory that was there before the extraction. */
  predicate OrphanFile(t0: Tree, t: Tree, p: Path, truncated: bool) {
    truncated && p !in t && Parent(p) in t0 && t0[Parent(p)].Dir?
  }

  predicate Orphans(t0: Tree, cfg: Config, t: Tree, e: Entry) {
    && Resolve(cfg.dest, e.name).Some? && e.kind.FileEntry?
    && var p := cfg.root + Resolve(cfg.dest, e.name).value;
       !UnderAny(p, cfg.skip) && OrphanFile(t0, t, p, e.kind.truncated)
  }

  /** Whatever is below something the extraction created, the record explains. */
  lemma ExplainedBelow(s: State, d: Path, p: Path)
    requires Explained(s, d) && d in s.tree && s.tree[d].Dir? && d <= p
    requires forall f :: f in s.files && f in s.tree ==> s.tree[f].File?
    ensures Explained(s, p)
  {
    var a :| a in s.newDirs && a <= d;
    assert a <= p;
  }

  /** A file that is new when it is written is unexplained exactly if its directory existed. */
  lemma UnexplainedIffDirExisted(t0: Tree, s: State, p: Path)
    requires WellFormed(t0) && Ready(s) && Recorded(t0, s) && p !in s.tree
    requires Parent(p) in s.tree && s.tree[Parent(p)].Dir?
    ensures Explained(s, p) <==> Parent(p) !in t0
  {
    assert RecordedAt(t0, s, p) && RecordedAt(t0, s, Parent(p));
    if Parent(p) !in t0 {
      assert forall f :: f in s.files && f in s.tree ==> RecordedAt(t0, s, f);
      ExplainedBelow(s, Parent(p), p);
    } else if Explained(s, p) {
      var d :| d in s.newDirs && d <= p;
      assert RecordedAt(t0, s, d);
      assert d != p && d <= Parent(p);
      AncestorExists(t0, d, Parent(p));
    }
  }

  /** The condition before the directories are made says the same as after. */
  lemma OrphanBefore(t0: Tree, s: State, p: Path, truncated: bool)
    requires WellFormed(t0) && Ready(s) && Recorded(t0, s)
    ensures var made := MakeDirs(s, Parent(p));
            OrphanFile(t0, s.tree, p, truncated) <==> truncated && !made.failed && p !in made.tree && Parent(p) in t0
  {
    MakeDirsKeepsTree(s, Parent(p));
    assert RecordedAt(t0, s, Parent(p));
    if Parent(p) in s.tree && s.tree[Parent(p)].Dir? {
      DirIsNotObstructed(s.tree, Parent(p));
    } else if Parent(p) in s.tree {
      assert Parent(p)[..|Parent(p)|] == Parent(p);
    }
  }

  lemma PutFileRecorded(t0: Tree, s: State, p: Path, content: string, truncated: bool, q: Path)
    requires WellFormed(t0) && Ready(s) && Recorded(t0, s)
    ensures RecordedAt(t0, PutFile(s, p, content, truncated), q) <==> !(q == p && OrphanFile(t0, s.tree, p, truncated))
  {
    var made := MakeDirs(s, Parent(p));
    forall x
      ensures RecordedAt(t0, made, x)
    {
      assert RecordedAt(t0, s, x);
      MakeDirsRecorded(t0, s, Parent(p), x);
    }
    OrphanBefore(t0, s, p, truncated);
    MakeDirsKeepsTree(s, Parent(p));
    if !made.failed {
      WriteRecorded(t0, made, p, content, truncated, q);
    }
  }

  /** The write itself, with the directory in place. */
  lemma WriteRecorded(t0: Tree, s: State, p: Path, content: string, truncated: bool, q: Path)
    requires WellFormed(t0) && Ready(s) && Recorded(t0, s)
    requires Parent(p) in s.tree && s.tree[Parent(p)].Dir?
    ensures RecordedAt(t0, PutFile(s, p, content, truncated), q) <==> !(q == p && truncated && p !in s.tree && Parent(p) in t0)
  {
    DirIsNotObstructed(s.tree, Parent(p));
    var s' := PutFile(s, p, content, truncated);
    assert RecordedAt(t0, s, q);
    if p !in s.tree {
      UnexplainedIffDirExisted(t0, s, p);
    }
    if q in s.tree && q !in t0 {
      StillExplained(s, s', q);
    }
  }

  /** One entry keeps the record exact, if and only if it does not orphan a file. */
  lemma PutRecorded(t0: Tree, cfg: Config, s: State, e: Entry)
    requires WellFormed(t0) && Ready(s) && Recorded(t0, s)
    ensures Recorded(t0, Put(cfg, s, e)) <==> !Orphans(t0, cfg, s.tree, e)
  {
    var s' := Put(cfg, s, e);
    if Orphans(t0, cfg, s.tree, e) {
      var p := cfg.root + Resolve(cfg.dest, e.name).value;
      PutRecordedAt(t0, cfg, s, e, p);
      assert !RecordedAt(t0, s', p);
    } else {
      forall q
        ensures RecordedAt(t0, s', q)
      {
        PutRecordedAt(t0, cfg, s, e, q);
      }
    }
  }

  lemma PutRecordedAt(t0: Tree, cfg: Config, s: State, e: Entry, q: Path)
    requires WellFormed(t0) && Ready(s) && Recorded(t0, s)
    ensures RecordedAt(t0, Put(cfg, s, e), q) <==>
            !(Orphans(t0, cfg, s.tree, e) && q == cfg.root + Resolve(cfg.dest, e.name).value)
  {
    var s' := Put(cfg, s, e);
    assert RecordedAt(t0, s, q);
    match Resolve(cfg.dest, e.name)
    case None => SameRecord(t0, s, s', q);
    case Some(rel) =>
      var p := cfg.root + rel;
      if UnderAny(p, cfg.skip) {
        return;
      }
      match e.kind
      case DirEntry => MakeDirsRecorded(t0, s, p, q);
      case FileEntry(content, truncated) => PutFileRecorded(t0, s, p, content, truncated, q);
      case _ => SameRecord(t0, s, s', q);
  }

  lemma SameRecord(t0: Tree, s: State, s': State, q: Path)
    requires RecordedAt(t0, s, q) && s'.tree == s.tree && s'.files == s.files && s'.newDirs == s.newDirs
    ensures RecordedAt(t0, s', q)
  {
  }

  /** Entry i is reached and orphans a file. */
  ghost predicate OrphansAt(t0: Tree, cfg: Config, s: State, es: seq<Entry>, i: nat)
    requires [] in s.tree
  {
    i < |es| && var before := PutAll(cfg, s, es[..i]); !before.failed && Orphans(t0, cfg, before.tree, es[i])
  }

  ghost predicate NoOrphans(t0: Tree, cfg: Config, s: State, es: seq<Entry>)
    requires [] in s.tree
  {
    forall i: nat :: i < |es| ==> !OrphansAt(t0, cfg, s, es, i)
  }

  lemma NoOrphansSnoc(t0: Tree, cfg: Config, s: State, es: seq<Entry>)
    requires [] in s.tree && es != []
    ensures var front := es[..|es| - 1];
            NoOrphans(t0, cfg, s, es) <==> NoOrphans(t0, cfg, s, front) && !OrphansAt(t0, cfg, s, es, |front|)
  {
    var front := es[..|es| - 1];
    forall i: nat | i < |front|
      ensures OrphansAt(t0, cfg, s, es, i) <==> OrphansAt(t0, cfg, s, front, i)
    {
      assert front[..i] == es[..i] && front[i] == es[i];
    }
  }

  /** Whatever the archive holds and however the extraction ends, the record is exact if and only
      if no file was orphaned; in particular whenever the extraction succeeds. */
  lemma {:induction false} ExtractionRecorded(t0: Tree, cfg: Config, s: State, es: seq<Entry>)
    requires WellFormed(t0) && Ready(s) && Recorded(t0, s)
    ensures var r := PutAll(cfg, s, es);
            && WellFormed(r.tree) && LinkFree(r.tree)
            && (Recorded(t0, r) <==> NoOrphans(t0, cfg, s, es))
            && (!r.failed ==> Recorded(t0, r))
  {
    if es != [] {
      var front, last := es[..|es| - 1], es[|es| - 1];
      ExtractionRecorded(t0, cfg, s, front);
      NoOrphansSnoc(t0, cfg, s, es);
      var before := PutAll(cfg, s, front);
      if !before.failed {
        PutKeepsTree(cfg, before, last);
        PutRecorded(t0, cfg, before, last);
        if Orphans(t0, cfg, before.tree, last) {
          OrphanMeansFailure(t0, cfg, before, last);
        }
      }
    }
  }

  lemma OrphanMeansFailure(t0: Tree, cfg: Config, s: State, e: Entry)
    requires [] in s.tree && Orphans(t0, cfg, s.tree, e)
    ensures Put(cfg, s, e).failed
  {
  }

  // ---------------------------------------------------------------------------------------
  // Roots
  // ---------------------------------------------------------------------------------------

  ghost predicate UnderRoot(s: State, q: Path) {
    exists r :: IsRoot(s.files, s.newDirs, r) && r <= q
  }

  /** A recorded directory is a root or below one. */
  lemma {:induction false} TopRecorded(s: State, d: Path) returns (r: Path)
    requires d in s.newDirs && [] !in s.newDirs
    ensures IsRoot(s.files, s.newDirs, r) && r <= d
    decreases |d|
  {
    if Covered(s.newDirs, d) {
      var a :| a in s.newDirs && a <= Parent(d);
      r := TopRecorded(s, a);
    } else {
      r := d;
    }
  }

  lemma CreatedIsUnderRoot(t0: Tree, s: State, q: Path)
    requires WellFormed(t0) && Recorded(t0, s) && q in s.tree && q !in t0
    ensures UnderRoot(s, q)
  {
    assert RecordedAt(t0, s, []) && RecordedAt(t0, s, q);
    if d :| d in s.newDirs && d <= q {
      var r := TopRecorded(s, d);
      assert r <= q;
    } else {
      assert q in s.files;
      assert Parent(q) <= q;
      assert IsRoot(s.files, s.newDirs, q);
    }
  }

  /** The paths at or below the roots are exactly the paths the extraction created; no path that
      existed before is at or below one; and no root is below another. */
  lemma RootsExact(t0: Tree, s: State)
    requires WellFormed(t0) && WellFormed(s.tree) && Recorded(t0, s)
    ensures forall q :: q in s.tree ==> (UnderRoot(s, q) <==> q !in t0)
    ensures forall q :: q in t0 ==> !UnderRoot(s, q)
    ensures forall r, other :: IsRoot(s.files, s.newDirs, r) && IsRoot(s.files, s.newDirs, other) && r <= other ==> r == other
  {
    forall q | UnderRoot(s, q)
      ensures q !in t0
    {
      var r :| IsRoot(s.files, s.newDirs, r) && r <= q;
      assert RecordedAt(t0, s, r);
      if q in t0 {
        AncestorExists(t0, r, q);
      }
    }
    forall q | q in s.tree && q !in t0
      ensures UnderRoot(s, q)
    {
      CreatedIsUnderRoot(t0, s, q);
    }
    forall r, other | IsRoot(s.files, s.newDirs, r) && IsRoot(s.files, s.newDirs, other) && r <= other
      ensures r == other
    {
      assert RecordedAt(t0, s, r) && RecordedAt(t0, s, other);
      AncestorExists(s.tree, r, other);
      if |r| == |other| {
        SamePath(r, other);
      }
    }
  }

  /** An archive that orphans a file: one new file, cut short, in a directory that existed. The file
      is on the disk and under no root of the record. */
  lemma TruncatedFileIsForgotten(content: string)
    ensures var t0: Tree := map[[] := Dir];
            var r := PutAll(Config([], [], [], false), State(t0, [], [], 0, false), [Entry(["a"], FileEntry(content, true))]);
            && r.failed && ["a"] in r.tree && ["a"] !in t0
            && !Recorded(t0, r) && !UnderRoot(r, ["a"])
  {
    var t0: Tree := map[[] := Dir];
    var cfg, s, e := Config([], [], [], false), State(t0, [], [], 0, false), Entry(["a"], FileEntry(content, true));
    assert [e][..0] == [] && PutAll(cfg, s, []) == s;
    assert Resolve([], ["a"]) == Some(["a"]) by {
      assert ["a"][1..] == [] && [] + ["a"] == ["a"];
    }
    assert Parent(["a"]) == [];
    DirIsNotObstructed(t0, []);
    var r := Put(cfg, s, e);
    assert r.tree == t0[["a"] := File(content)] && r.files == [] && r.newDirs == [];
    assert !RecordedAt(t0, r, ["a"]);
  }

  /** Making the destination, then extracting into it as its own root. */
  ghost function ExtractedDir(t0: Tree, dest: Path, skip: seq<Path>, refuseLinks: bool, es: seq<Entry>): State
    requires WellFormed(t0)
  {
    var made := MakeDirs(State(t0, [], [], 0, false), dest);
    if made.failed then made else Extracted(dest, dest, skip, refuseLinks, made, es)
  }

  /** ExtractTarZstdDir. */
  method ExtractDir(disk: Disk, dest: Path, skip: seq<Path>, refuseLinks: bool, es: seq<Entry>)
    returns (w: Written, skippedLinks: nat, ok: bool)
    requires WellFormed(disk.tree) && LinkFree(disk.tree)
    modifies disk
    ensures fresh(w)
    ensures State(disk.tree, w.files, w.newDirs, skippedLinks, !ok) == ExtractedDir(old(disk.tree), dest, skip, refuseLinks, es)
  {
    w := new Written();
    skippedLinks := 0;
    MakeDirsKeepsTree(State(disk.tree, [], [], 0, false), dest);
    ok := w.MkdirAll(disk, dest);
    if ok {
      skippedLinks, ok := Extract(dest, dest, skip, refuseLinks, disk, w, es);
    }
  }

  /** After ExtractTarZstdDir succeeds, whether or not the destination existed, the roots of the
      record cover exactly what was created. */
  lemma ExtractedDirRoots(t0: Tree, dest: Path, skip: seq<Path>, refuseLinks: bool, es: seq<Entry>)
    requires WellFormed(t0) && LinkFree(t0) && !ExtractedDir(t0, dest, skip, refuseLinks, es).failed
    ensures var s := ExtractedDir(t0, dest, skip, refuseLinks, es);
            && (forall q :: q in t0 ==> q in s.tree && !UnderRoot(s, q))
            && (forall q :: q in s.tree ==> (UnderRoot(s, q) <==> q !in t0))
  {
    var start, cfg := State(t0, [], [], 0, false), Config(dest, dest[|dest|..], skip, refuseLinks);
    var made := MakeDirs(start, dest);
    MakeDirsKeepsTree(start, dest);
    forall q
      ensures RecordedAt(t0, made, q)
    {
      MakeDirsRecorded(t0, start, dest, q);
    }
    ExtractionRecorded(t0, cfg, made, es);
    var s := PutAll(cfg, made, es);
    RootsExact(t0, s);
    assert forall q :: q in t0 ==> RecordedAt(t0, s, q);
  }
}
