/** Grants and what they decide (internal/authz/grants.go). */
module GrantSpec {
  import opened Permissions
  import opened Folders

  /** One grant with the reason it exists; folder "" is global. */
  datatype Source = Source(folder: string, perms: Set, reason: string)

  /** What holding a permission on a job means: some recorded grant gives it, globally or on a proper
      ancestor folder. */
  ghost predicate Held(ss: seq<Source>, p: Permission, job: string) {
    exists i :: 0 <= i < |ss| && Gives(ss[i], p, job)
  }

  predicate Gives(s: Source, p: Permission, job: string) {
    Has(s.perms, p) && (s.folder == "" || Covers(s.folder, job))
  }

  /** Add: an empty grant is ignored. */
  function Plus(ss: seq<Source>, s: Source): seq<Source> {
    if s.perms == 0 then ss else ss + [s]
  }

  lemma HeldPlus(ss: seq<Source>, s: Source, p: Permission, job: string)
    ensures Held(Plus(ss, s), p, job) <==> Held(ss, p, job) || Gives(s, p, job)
  {
    if s.perms == 0 {
      HasNothing(p);
    } else {
      HeldConcat(ss, [s], p, job);
      assert Held([s], p, job) <==> Gives(s, p, job) by {
        assert Gives(s, p, job) ==> Gives([s][0], p, job);
      }
    }
  }

  lemma HeldConcat(ss: seq<Source>, os: seq<Source>, p: Permission, job: string)
    ensures Held(ss + os, p, job) <==> Held(ss, p, job) || Held(os, p, job)
  {
    if Held(ss, p, job) {
      var i :| 0 <= i < |ss| && Gives(ss[i], p, job);
      assert (ss + os)[i] == ss[i];
    }
    if Held(os, p, job) {
      var i :| 0 <= i < |os| && Gives(os[i], p, job);
      assert (ss + os)[|ss| + i] == os[i];
    }
  }

  // The derived index.

  function GlobalOf(ss: seq<Source>): Set {
    if ss == [] then 0
    else
      var before, s := GlobalOf(ss[..|ss| - 1]), ss[|ss| - 1];
      if s.folder == "" then Union(before, s.perms) else before
  }

  function OnFolder(folders: map<string, Set>, f: string): Set {
    if f in folders then folders[f] else 0
  }

  function FoldersOf(ss: seq<Source>): map<string, Set> {
    if ss == [] then map[]
    else
      var before, s := FoldersOf(ss[..|ss| - 1]), ss[|ss| - 1];
      if s.folder == "" then before else before[s.folder := Union(OnFolder(before, s.folder), s.perms)]
  }

  /** The index and the source list say the same about every folder. */
  lemma {:induction false} IndexAgrees(ss: seq<Source>, f: string, p: Permission)
    ensures Has(if f == "" then GlobalOf(ss) else OnFolder(FoldersOf(ss), f), p) <==>
            exists i :: 0 <= i < |ss| && ss[i].folder == f && Has(ss[i].perms, p)
  {
    HasNothing(p);
    if ss != [] {
      var front, s := ss[..|ss| - 1], ss[|ss| - 1];
      IndexAgrees(front, f, p);
      assert forall i :: 0 <= i < |front| ==> front[i] == ss[i];
      if s.folder == f {
        HasUnion(if f == "" then GlobalOf(front) else OnFolder(FoldersOf(front), f), s.perms, p);
      }
    }
  }

  // ---------------------------------------------------------------------------------------
  // The order in which sources are reported
  // ---------------------------------------------------------------------------------------

  /** Global first, then folders by ascending depth. */
  function Rank(s: Source): nat {
    if s.folder == "" then 0 else 1 + Depth(s.folder)
  }

  function Granting(ss: seq<Source>, p: Permission, job: string): seq<Source> {
    if ss == [] then []
    else
      var before, s := Granting(ss[..|ss| - 1], p, job), ss[|ss| - 1];
      if Gives(s, p, job) then before + [s] else before
  }

  function Globals(ss: seq<Source>): seq<Source> {
    if ss == [] then []
    else
      var before, s := Globals(ss[..|ss| - 1]), ss[|ss| - 1];
      if s.folder == "" then before + [s] else before
  }

  function OnFolders(ss: seq<Source>): seq<Source> {
    if ss == [] then []
    else
      var before, s := OnFolders(ss[..|ss| - 1]), ss[|ss| - 1];
      if s.folder != "" then before + [s] else before
  }

  /** sort.SliceStable by depth: each source goes behind those that are no deeper. */
  function StableSort(ss: seq<Source>): seq<Source> {
    if ss == [] then [] else Insert(StableSort(ss[..|ss| - 1]), ss[|ss| - 1])
  }

  function Insert(ss: seq<Source>, s: Source): seq<Source> {
    if ss == [] || Rank(ss[|ss| - 1]) <= Rank(s) then ss + [s]
    else Insert(ss[..|ss| - 1], s) + [ss[|ss| - 1]]
  }

  /** The granting sources as Decide and Explain see them. */
  function Ordered(ss: seq<Source>, p: Permission, job: string): seq<Source> {
    Globals(Granting(ss, p, job)) + StableSort(OnFolders(Granting(ss, p, job)))
  }

  function OfRank(ss: seq<Source>, r: nat): seq<Source> {
    if ss == [] then []
    else
      var before, s := OfRank(ss[..|ss| - 1], r), ss[|ss| - 1];
      if Rank(s) == r then before + [s] else before
  }

  ghost predicate Sorted(ss: seq<Source>) {
    forall i, j :: 0 <= i < j < |ss| ==> Rank(ss[i]) <= Rank(ss[j])
  }

  lemma OfRankSnoc(ss: seq<Source>, s: Source, r: nat)
    ensures OfRank(ss + [s], r) == if Rank(s) == r then OfRank(ss, r) + [s] else OfRank(ss, r)
  {
  }

  lemma {:induction false} OfRankConcat(ss: seq<Source>, os: seq<Source>, r: nat)
    ensures OfRank(ss + os, r) == OfRank(ss, r) + OfRank(os, r)
  {
    if os == [] {
      assert ss + os == ss;
    } else {
      assert (ss + os)[..|ss + os| - 1] == ss + os[..|os| - 1];
      OfRankConcat(ss, os[..|os| - 1], r);
    }
  }

  lemma {:induction false} InsertKeeps(ss: seq<Source>, s: Source, r: nat)
    ensures OfRank(Insert(ss, s), r) == OfRank(ss + [s], r)
  {
    OfRankSnoc(ss, s, r);
    if ss != [] && Rank(ss[|ss| - 1]) > Rank(s) {
      var front, last := ss[..|ss| - 1], ss[|ss| - 1];
      InsertKeeps(front, s, r);
      OfRankSnoc(front, s, r);
      OfRankSnoc(Insert(front, s), last, r);
    }
  }

  ghost predicate NoDeeper(ss: seq<Source>, r: nat) {
    forall i :: 0 <= i < |ss| ==> Rank(ss[i]) <= r
  }

  lemma {:induction false} InsertNoDeeper(ss: seq<Source>, s: Source, r: nat)
    requires NoDeeper(ss, r) && Rank(s) <= r
    ensures NoDeeper(Insert(ss, s), r)
  {
    if ss != [] && Rank(ss[|ss| - 1]) > Rank(s) {
      InsertNoDeeper(ss[..|ss| - 1], s, r);
    }
  }

  lemma SortedSnoc(ss: seq<Source>, s: Source)
    requires Sorted(ss) && NoDeeper(ss, Rank(s))
    ensures Sorted(ss + [s])
  {
  }

  lemma {:induction false} InsertSorted(ss: seq<Source>, s: Source)
    requires Sorted(ss)
    ensures Sorted(Insert(ss, s))
  {
    if ss == [] || Rank(ss[|ss| - 1]) <= Rank(s) {
      SortedSnoc(ss, s);
    } else {
      var front, last := ss[..|ss| - 1], ss[|ss| - 1];
      InsertSorted(front, s);
      InsertNoDeeper(front, s, Rank(last));
      SortedSnoc(Insert(front, s), last);
    }
  }

  lemma {:induction false} StableSortKeeps(ss: seq<Source>, r: nat)
    ensures Sorted(StableSort(ss))
    ensures OfRank(StableSort(ss), r) == OfRank(ss, r)
  {
    if ss != [] {
      var front, s := ss[..|ss| - 1], ss[|ss| - 1];
      StableSortKeeps(front, r);
      InsertSorted(StableSort(front), s);
      InsertKeeps(StableSort(front), s, r);
      OfRankSnoc(StableSort(front), s, r);
    }
  }

  lemma {:induction false} GlobalsOfRank(ss: seq<Source>, r: nat)
    ensures OfRank(Globals(ss), r) == if r == 0 then OfRank(ss, r) else []
  {
    if ss != [] {
      var front, s := ss[..|ss| - 1], ss[|ss| - 1];
      GlobalsOfRank(front, r);
      OfRankSnoc(Globals(front), s, r);
    }
  }

  lemma {:induction false} GlobalsFirst(ss: seq<Source>)
    ensures NoDeeper(Globals(ss), 0)
  {
    if ss != [] {
      GlobalsFirst(ss[..|ss| - 1]);
    }
  }

  lemma {:induction false} OnFoldersOfRank(ss: seq<Source>, r: nat)
    ensures OfRank(OnFolders(ss), r) == if r == 0 then [] else OfRank(ss, r)
  {
    if ss != [] {
      var front, s := ss[..|ss| - 1], ss[|ss| - 1];
      OnFoldersOfRank(front, r);
      OfRankSnoc(OnFolders(front), s, r);
    }
  }

  lemma SortedConcat(ss: seq<Source>, os: seq<Source>)
    requires NoDeeper(ss, 0) && Sorted(os)
    ensures Sorted(ss + os)
  {
  }

  /** The reporting order is by rank, and within a rank it is the order in which grants were added:
      it is the granting sources, stably sorted. */
  lemma OrderedIsStable(ss: seq<Source>, p: Permission, job: string, r: nat)
    ensures Sorted(Ordered(ss, p, job))
    ensures OfRank(Ordered(ss, p, job), r) == OfRank(Granting(ss, p, job), r)
  {
    var gs := Granting(ss, p, job);
    GlobalsOfRank(gs, r);
    GlobalsFirst(gs);
    OnFoldersOfRank(gs, r);
    StableSortKeeps(OnFolders(gs), r);
    SortedConcat(Globals(gs), StableSort(OnFolders(gs)));
    OfRankConcat(Globals(gs), StableSort(OnFolders(gs)), r);
  }

  /** Nothing else is sorted and has the same sources of each rank in the same order. */
  lemma {:induction false} StableOrderIsUnique(xs: seq<Source>, ys: seq<Source>)
    requires Sorted(xs) && Sorted(ys) && forall r: nat :: OfRank(xs, r) == OfRank(ys, r)
    ensures xs == ys
  {
    if xs == [] {
      SomeOfRank(ys);
    } else if ys == [] {
      SomeOfRank(xs);
    } else {
      var x, y := xs[|xs| - 1], ys[|ys| - 1];
      var xf, yf := xs[..|xs| - 1], ys[..|ys| - 1];
      LastIsDeepest(xs, ys);
      LastIsDeepest(ys, xs);
      assert OfRank(xs, Rank(x)) == OfRank(ys, Rank(x));
      SnocInjective(OfRank(xf, Rank(x)), x, OfRank(yf, Rank(x)), y);
      forall r: nat
        ensures OfRank(xf, r) == OfRank(yf, r)
      {
        assert OfRank(xs, r) == OfRank(ys, r);
      }
      StableOrderIsUnique(xf, yf);
      assert xs == xf + [x] && ys == yf + [y];
    }
  }

  lemma SnocInjective(a: seq<Source>, x: Source, b: seq<Source>, y: Source)
    requires a + [x] == b + [y]
    ensures a == b && x == y
  {
    assert (a + [x])[..|a|] == a && (b + [y])[..|b|] == b;
    assert (a + [x])[|a|] == x && (b + [y])[|b|] == y;
  }

  lemma SomeOfRank(xs: seq<Source>)
    requires forall r: nat :: OfRank(xs, r) == []
    ensures xs == []
  {
    assert xs != [] ==> OfRank(xs, Rank(xs[|xs| - 1])) != [];
  }

  /** The deepest rank of one list occurs in the other. */
  lemma LastIsDeepest(xs: seq<Source>, ys: seq<Source>)
    requires Sorted(ys) && xs != [] && ys != [] && forall r: nat :: OfRank(xs, r) == OfRank(ys, r)
    ensures Rank(xs[|xs| - 1]) <= Rank(ys[|ys| - 1])
  {
    var r := Rank(xs[|xs| - 1]);
    assert OfRank(xs, r) != [];
    OfRankMember(ys, r);
  }

  lemma {:induction false} OfRankMember(ss: seq<Source>, r: nat)
    requires OfRank(ss, r) != []
    ensures exists i :: 0 <= i < |ss| && Rank(ss[i]) == r
  {
    if ss != [] && Rank(ss[|ss| - 1]) != r {
      OfRankMember(ss[..|ss| - 1], r);
      var i :| 0 <= i < |ss| - 1 && Rank(ss[..|ss| - 1][i]) == r;
      assert Rank(ss[i]) == r;
    }
  }

  lemma {:induction false} GrantingNonEmpty(ss: seq<Source>, p: Permission, job: string)
    ensures Granting(ss, p, job) != [] <==> Held(ss, p, job)
  {
    if ss != [] {
      var front := ss[..|ss| - 1];
      GrantingNonEmpty(front, p, job);
      assert ss == front + [ss[|ss| - 1]];
      HeldConcat(front, [ss[|ss| - 1]], p, job);
      assert Held([ss[|ss| - 1]], p, job) <==> Gives(ss[|ss| - 1], p, job) by {
        assert [ss[|ss| - 1]][0] == ss[|ss| - 1];
      }
    }
  }

  /** A source is reported exactly when the permission is held. */
  lemma OrderedNonEmpty(ss: seq<Source>, p: Permission, job: string)
    ensures Ordered(ss, p, job) != [] <==> Held(ss, p, job)
  {
    var os, gs := Ordered(ss, p, job), Granting(ss, p, job);
    GrantingNonEmpty(ss, p, job);
    if os != [] {
      OrderedIsStable(ss, p, job, Rank(os[|os| - 1]));
      assert OfRank(os, Rank(os[|os| - 1])) != [];
      OfRankMember(gs, Rank(os[|os| - 1]));
    }
    if gs != [] {
      OrderedIsStable(ss, p, job, Rank(gs[|gs| - 1]));
      assert OfRank(gs, Rank(gs[|gs| - 1])) != [];
      OfRankMember(os, Rank(gs[|gs| - 1]));
    }
  }

  lemma {:induction false} FirstOfRank(ss: seq<Source>, r: nat) returns (i: nat)
    requires OfRank(ss, r) != []
    ensures i < |ss| && Rank(ss[i]) == r && ss[i] == OfRank(ss, r)[0]
    ensures forall j :: 0 <= j < i ==> Rank(ss[j]) != r
  {
    var front := ss[..|ss| - 1];
    if OfRank(front, r) != [] {
      i := FirstOfRank(front, r);
    } else {
      i := |ss| - 1;
      NoneOfRank(front, r);
    }
  }

  lemma {:induction false} NoneOfRank(ss: seq<Source>, r: nat)
    requires OfRank(ss, r) == []
    ensures forall j :: 0 <= j < |ss| ==> Rank(ss[j]) != r
  {
    if ss != [] {
      NoneOfRank(ss[..|ss| - 1], r);
    }
  }

  /** The source Decide reports: of the granting sources, a global one if there is any, else one on the
      shallowest folder; and of those, the one added first. */
  lemma FirstReported(ss: seq<Source>, p: Permission, job: string) returns (i: nat)
    requires Held(ss, p, job)
    ensures Ordered(ss, p, job) != []
    ensures var gs := Granting(ss, p, job);
            && i < |gs| && Ordered(ss, p, job)[0] == gs[i]
            && (forall j :: 0 <= j < |gs| ==> Rank(gs[i]) <= Rank(gs[j]))
            && (forall j :: 0 <= j < i ==> Rank(gs[i]) < Rank(gs[j]))
  {
    OrderedNonEmpty(ss, p, job);
    var os, gs := Ordered(ss, p, job), Granting(ss, p, job);
    var r := Rank(os[0]);
    OrderedIsStable(ss, p, job, r);
    if OfRank(os, r) == [] {
      NoneOfRank(os, r);
    }
    var k := FirstOfRank(os, r);
    i := FirstOfRank(gs, r);
    forall j | 0 <= j < |gs|
      ensures r <= Rank(gs[j])
    {
      OrderedIsStable(ss, p, job, Rank(gs[j]));
      if OfRank(gs, Rank(gs[j])) == [] {
        NoneOfRank(gs, Rank(gs[j]));
      }
      OfRankMember(os, Rank(gs[j]));
    }
  }

  /** In terms of the folders: a global source is reported if any grants; otherwise the source reported
      is on a folder that contains every other granting folder, and of those on the same folder it is the
      one added first. */
  lemma ReportedIsOutermost(ss: seq<Source>, p: Permission, job: string) returns (i: nat)
    requires Held(ss, p, job)
    ensures Ordered(ss, p, job) != []
    ensures var gs := Granting(ss, p, job);
            && i < |gs| && Ordered(ss, p, job)[0] == gs[i]
            && (forall j :: 0 <= j < |gs| ==> gs[i].folder <= gs[j].folder)
            && (forall j :: 0 <= j < i ==> gs[j].folder != gs[i].folder)
  {
    i := FirstReported(ss, p, job);
    var gs := Granting(ss, p, job);
    forall j | 0 <= j < |gs|
      ensures gs[i].folder <= gs[j].folder
    {
      GrantingGives(ss, p, job, i);
      GrantingGives(ss, p, job, j);
      if gs[i].folder != "" {
        assert gs[j].folder != "";
        DeeperIsLonger(gs[i].folder, gs[j].folder, job);
      }
    }
  }

  lemma {:induction false} GrantingGives(ss: seq<Source>, p: Permission, job: string, j: nat)
    requires j < |Granting(ss, p, job)|
    ensures Gives(Granting(ss, p, job)[j], p, job)
  {
    if ss != [] && j < |Granting(ss[..|ss| - 1], p, job)| {
      GrantingGives(ss[..|ss| - 1], p, job, j);
    }
  }

  // ---------------------------------------------------------------------------------------
  // Restrict and Union
  // ---------------------------------------------------------------------------------------

  function Cut(s: Source, ceiling: Set, suffix: string): Source {
    Source(s.folder, Intersect(s.perms, ceiling), s.reason + suffix)
  }

  function Restricted(ss: seq<Source>, ceiling: Set, suffix: string): seq<Source> {
    if ss == [] then [] else Plus(Restricted(ss[..|ss| - 1], ceiling, suffix), Cut(ss[|ss| - 1], ceiling, suffix))
  }

  function CutAll(ss: seq<Source>, ceiling: Set, suffix: string): seq<Source> {
    seq(|ss|, i requires 0 <= i < |ss| => Cut(ss[i], ceiling, suffix))
  }

  /** Restricting keeps, of the granting sources, all if the ceiling has the permission and else
      none. */
  lemma {:induction false} GrantingRestricted(ss: seq<Source>, ceiling: Set, suffix: string, p: Permission, job: string)
    ensures Granting(Restricted(ss, ceiling, suffix), p, job) ==
            if Has(ceiling, p) then CutAll(Granting(ss, p, job), ceiling, suffix) else []
  {
    if ss != [] {
      var front, s := ss[..|ss| - 1], ss[|ss| - 1];
      GrantingRestricted(front, ceiling, suffix, p, job);
      HasIntersect(s.perms, ceiling, p);
      HasNothing(p);
      var before, c := Restricted(front, ceiling, suffix), Cut(s, ceiling, suffix);
      assert (before + [c])[..|before|] == before;
    }
  }

  lemma {:induction false} GlobalsOfCut(ss: seq<Source>, ceiling: Set, suffix: string)
    ensures Globals(CutAll(ss, ceiling, suffix)) == CutAll(Globals(ss), ceiling, suffix)
  {
    if ss != [] {
      GlobalsOfCut(ss[..|ss| - 1], ceiling, suffix);
      assert CutAll(ss, ceiling, suffix)[..|ss| - 1] == CutAll(ss[..|ss| - 1], ceiling, suffix);
    }
  }

  lemma {:induction false} OnFoldersOfCut(ss: seq<Source>, ceiling: Set, suffix: string)
    ensures OnFolders(CutAll(ss, ceiling, suffix)) == CutAll(OnFolders(ss), ceiling, suffix)
  {
    if ss != [] {
      OnFoldersOfCut(ss[..|ss| - 1], ceiling, suffix);
      assert CutAll(ss, ceiling, suffix)[..|ss| - 1] == CutAll(ss[..|ss| - 1], ceiling, suffix);
    }
  }

  lemma {:induction false} InsertOfCut(ss: seq<Source>, s: Source, ceiling: Set, suffix: string)
    ensures Insert(CutAll(ss, ceiling, suffix), Cut(s, ceiling, suffix)) == CutAll(Insert(ss, s), ceiling, suffix)
  {
    if ss != [] && Rank(ss[|ss| - 1]) > Rank(s) {
      InsertOfCut(ss[..|ss| - 1], s, ceiling, suffix);
      assert CutAll(ss, ceiling, suffix)[..|ss| - 1] == CutAll(ss[..|ss| - 1], ceiling, suffix);
    }
  }

  lemma {:induction false} SortOfCut(ss: seq<Source>, ceiling: Set, suffix: string)
    ensures StableSort(CutAll(ss, ceiling, suffix)) == CutAll(StableSort(ss), ceiling, suffix)
  {
    if ss != [] {
      SortOfCut(ss[..|ss| - 1], ceiling, suffix);
      assert CutAll(ss, ceiling, suffix)[..|ss| - 1] == CutAll(ss[..|ss| - 1], ceiling, suffix);
      InsertOfCut(StableSort(ss[..|ss| - 1]), ss[|ss| - 1], ceiling, suffix);
    }
  }

  /** Restrict reports the same sources in the same order, with the suffix, if the ceiling has the
      permission, and else none. */
  lemma RestrictOrdered(ss: seq<Source>, ceiling: Set, suffix: string, p: Permission, job: string)
    ensures Ordered(Restricted(ss, ceiling, suffix), p, job) ==
            if Has(ceiling, p) then CutAll(Ordered(ss, p, job), ceiling, suffix) else []
  {
    var gs := Granting(ss, p, job);
    GrantingRestricted(ss, ceiling, suffix, p, job);
    GlobalsOfCut(gs, ceiling, suffix);
    OnFoldersOfCut(gs, ceiling, suffix);
    SortOfCut(OnFolders(gs), ceiling, suffix);
    CutAllConcat(Globals(gs), StableSort(OnFolders(gs)), ceiling, suffix);
  }

  /** Each reported source keeps its folder and gets the suffix. */
  lemma RestrictedSources(ss: seq<Source>, ceiling: Set, suffix: string, p: Permission, job: string, i: nat)
    requires Has(ceiling, p) && i < |Ordered(ss, p, job)|
    ensures |Ordered(Restricted(ss, ceiling, suffix), p, job)| == |Ordered(ss, p, job)|
    ensures var r, s := Ordered(Restricted(ss, ceiling, suffix), p, job)[i], Ordered(ss, p, job)[i];
            r.folder == s.folder && r.reason == s.reason + suffix && forall q :: Has(r.perms, q) <==> Has(s.perms, q) && Has(ceiling, q)
  {
    RestrictOrdered(ss, ceiling, suffix, p, job);
    forall q
      ensures Has(Intersect(Ordered(ss, p, job)[i].perms, ceiling), q) <==> Has(Ordered(ss, p, job)[i].perms, q) && Has(ceiling, q)
    {
      HasIntersect(Ordered(ss, p, job)[i].perms, ceiling, q);
    }
  }

  lemma CutAllConcat(a: seq<Source>, b: seq<Source>, ceiling: Set, suffix: string)
    ensures CutAll(a + b, ceiling, suffix) == CutAll(a, ceiling, suffix) + CutAll(b, ceiling, suffix)
  {
  }

  /** Restrict holds exactly what was held and is under the ceiling. */
  lemma RestrictHeld(ss: seq<Source>, ceiling: Set, suffix: string, p: Permission, job: string)
    ensures Held(Restricted(ss, ceiling, suffix), p, job) <==> Held(ss, p, job) && Has(ceiling, p)
  {
    GrantingRestricted(ss, ceiling, suffix, p, job);
    GrantingNonEmpty(ss, p, job);
    GrantingNonEmpty(Restricted(ss, ceiling, suffix), p, job);
    assert |CutAll(Granting(ss, p, job), ceiling, suffix)| == |Granting(ss, p, job)|;
  }
}
