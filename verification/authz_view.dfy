/** The Grants type itself, and its JSON form (internal/authz/grants.go). */
module GrantSets {
  import opened Common
  import opened Permissions
  import opened Sorting
  import opened Folders
  import opened GrantSpec

  class Grants {
    var global: Set
    var folders: map<string, Set>
    var sources: seq<Source>

    constructor ()
      ensures Valid() && sources == []
    {
      global, folders, sources := 0, map[], [];
    }

    /** The index is derived from the source list, which holds no empty grant. */
    ghost predicate Valid()
      reads this
    {
      && global == GlobalOf(sources) && folders == FoldersOf(sources)
      && forall i :: 0 <= i < |sources| ==> sources[i].perms != 0
    }

    method Add(folder: string, perms: Set, reason: string)
      requires Valid()
      modifies this
      ensures Valid() && sources == Plus(old(sources), Source(folder, perms, reason))
    {
      if perms == 0 {
        return;
      }
      if folder == "" {
        global := Permissions.Union(global, perms);
      } else {
        folders := folders[folder := Permissions.Union(if folder in folders then folders[folder] else 0, perms)];
      }
      sources := sources + [Source(folder, perms, reason)];
      assert sources[..|sources| - 1] == old(sources);
    }

    /** Can answers from the index what the source list means. */
    method Can(p: Permission, job: string) returns (can: bool)
      requires Valid()
      ensures can <==> Held(sources, p, job)
    {
      IndexAgrees(sources, "", p);
      if Has(global, p) {
        return true;
      }
      var above := Ancestors(job);
      for k := 0 to |above|
        invariant forall j :: 0 <= j < k ==> !Has(OnFolder(folders, above[j]), p)
      {
        assert above[k] in above;
        IndexAgrees(sources, above[k], p);
        if above[k] in folders && Has(folders[above[k]], p) {
          var i :| 0 <= i < |sources| && sources[i].folder == above[k] && Has(sources[i].perms, p);
          assert Gives(sources[i], p, job);
          return true;
        }
        HasNothing(p);
      }
      forall i | 0 <= i < |sources|
        ensures !Gives(sources[i], p, job)
      {
        NotOnAnyAncestor(sources, folders, p, job, above, i);
      }
      return false;
    }

    /** ordered: the granting sources, global ones first, then by depth, then as added. */
    method OrderedSources(p: Permission, job: string) returns (out: seq<Source>)
      ensures out == Ordered(sources, p, job)
    {
      var globals: seq<Source>, onFolders: seq<Source> := [], [];
      for i := 0 to |sources|
        invariant globals == Globals(Granting(sources[..i], p, job))
        invariant onFolders == OnFolders(Granting(sources[..i], p, job))
      {
        var s := sources[i];
        GrantingSnoc(sources[..i], s, p, job);
        assert sources[..i + 1] == sources[..i] + [s];
        if !Has(s.perms, p) {
          continue;
        }
        if s.folder == "" {
          globals := globals + [s];
        } else if Covers(s.folder, job) {
          onFolders := onFolders + [s];
        }
      }
      assert sources[..|sources|] == sources;
      out := globals + StableSort(onFolders);
    }

    /** Decide: held or not, and the first source reported. */
    method Decide(p: Permission, job: string) returns (ok: bool, reason: string)
      ensures ok <==> Held(sources, p, job)
      ensures ok <==> Ordered(sources, p, job) != []
      ensures ok ==> reason == Ordered(sources, p, job)[0].reason
    {
      OrderedNonEmpty(sources, p, job);
      var out := OrderedSources(p, job);
      if out == [] {
        return false, "";
      }
      return true, out[0].reason;
    }

    /** Explain: every source, in Decide's order. */
    method Explain(p: Permission, job: string) returns (reasons: seq<string>)
      ensures reasons != [] <==> Held(sources, p, job)
      ensures |reasons| == |Ordered(sources, p, job)|
      ensures forall i :: 0 <= i < |reasons| ==> reasons[i] == Ordered(sources, p, job)[i].reason
    {
      OrderedNonEmpty(sources, p, job);
      var out := OrderedSources(p, job);
      reasons := [];
      for i := 0 to |out|
        invariant |reasons| == i && forall k :: 0 <= k < i ==> reasons[k] == out[k].reason
      {
        reasons := reasons + [out[i].reason];
      }
    }

    /** Union: neither input is modified. */
    method Union(o: Grants) returns (r: Grants)
      requires Valid() && o.Valid()
      ensures fresh(r) && r.Valid() && r.sources == sources + o.sources
      ensures forall p, job :: Held(r.sources, p, job) <==> Held(sources, p, job) || Held(o.sources, p, job)
    {
      r := new Grants();
      for i := 0 to |sources|
        invariant fresh(r) && r.Valid() && r.sources == sources[..i]
      {
        r.Add(sources[i].folder, sources[i].perms, sources[i].reason);
      }
      for i := 0 to |o.sources|
        invariant fresh(r) && r.Valid() && r.sources == sources + o.sources[..i]
      {
        r.Add(o.sources[i].folder, o.sources[i].perms, o.sources[i].reason);
      }
      assert o.sources[..|o.sources|] == o.sources;
      forall p, job
        ensures Held(r.sources, p, job) <==> Held(sources, p, job) || Held(o.sources, p, job)
      {
        HeldConcat(sources, o.sources, p, job);
      }
    }

    method Restrict(ceiling: Set, suffix: string) returns (r: Grants)
      requires Valid()
      ensures fresh(r) && r.Valid() && r.sources == Restricted(sources, ceiling, suffix)
      ensures forall p, job :: Held(r.sources, p, job) <==> Held(sources, p, job) && Has(ceiling, p)
    {
      r := new Grants();
      for i := 0 to |sources|
        invariant fresh(r) && r.Valid() && r.sources == Restricted(sources[..i], ceiling, suffix)
      {
        assert sources[..i + 1][..i] == sources[..i];
        r.Add(sources[i].folder, Intersect(sources[i].perms, ceiling), sources[i].reason + suffix);
      }
      assert sources[..|sources|] == sources;
      forall p, job
        ensures Held(r.sources, p, job) <==> Held(sources, p, job) && Has(ceiling, p)
      {
        RestrictHeld(sources, ceiling, suffix, p, job);
      }
    }
  }

  lemma NotOnAnyAncestor(ss: seq<Source>, folders: map<string, Set>, p: Permission, job: string, above: seq<string>, i: nat)
    requires folders == FoldersOf(ss) && !Has(GlobalOf(ss), p) && i < |ss|
    requires forall f :: f in above <==> f != "" && Covers(f, job)
    requires forall j :: 0 <= j < |above| ==> !Has(OnFolder(folders, above[j]), p)
    ensures !Gives(ss[i], p, job)
  {
    var f := ss[i].folder;
    IndexAgrees(ss, f, p);
    if f != "" && Covers(f, job) {
      assert f in above;
    }
  }

  lemma GrantingSnoc(ss: seq<Source>, s: Source, p: Permission, job: string)
    ensures Granting(ss + [s], p, job) == if Gives(s, p, job) then Granting(ss, p, job) + [s] else Granting(ss, p, job)
    ensures var gs := Granting(ss, p, job);
            && Globals(gs + [s]) == (if s.folder == "" then Globals(gs) + [s] else Globals(gs))
            && OnFolders(gs + [s]) == (if s.folder != "" then OnFolders(gs) + [s] else OnFolders(gs))
  {
  }

  // ---------------------------------------------------------------------------------------
  // The JSON form
  // ---------------------------------------------------------------------------------------

  datatype GrantsView = GrantsView(global: seq<Permission>, folders: map<string, seq<Permission>>)

  /** Set.Names: exactly what is held, each name once, in ascending order. */
  method Names(s: Set) returns (names: seq<Permission>)
    ensures forall p :: p in names <==> Has(s, p)
    ensures Distinct(names) && SortedBy(names, Dotted)
  {
    names := [];
    for i := 0 to SIZE
      invariant forall p :: p in names <==> Has(s, p) && BitOf(p) < i
      invariant Distinct(names)
    {
      MaskIsBit(s, i);
      HasIsBit(s, Listed(i));
      assert forall p :: BitOf(p) == i <==> p == Listed(i);
      if And(s, One(i)) != 0 {
        names := names + [Listed(i)];
      }
    }
    names := SortBy(names, Dotted);
  }

  /** parseSet: an unknown name is an error, and nothing else is. */
  method ParseSet(names: seq<Permission>) returns (r: Result<Set>)
    ensures r.Ok? <==> forall p :: p in names ==> Known(p)
    ensures r.Ok? ==> InCatalogue(r.value) && forall p :: Has(r.value, p) <==> p in names
  {
    var s := 0;
    assert InCatalogue(s);
    forall p
      ensures !Has(s, p)
    {
      HasNothing(p);
    }
    for i := 0 to |names|
      invariant forall p :: p in names[..i] ==> Known(p)
      invariant InCatalogue(s)
      invariant forall p :: Has(s, p) <==> p in names[..i]
    {
      assert names[..i + 1] == names[..i] + [names[i]];
      if !Known(names[i]) {
        assert names[i] in names;
        return Err("unknown permission");
      }
      forall p
        ensures Has(With(s, names[i]), p) <==> Has(s, p) || p == names[i]
      {
        HasWith(s, names[i], p);
      }
      WithFits(s, names[i]);
      s := With(s, names[i]);
    }
    assert names[..|names|] == names;
    r := Ok(s);
  }

  lemma {:induction false} OneFits(i: nat, n: nat)
    requires i < n
    ensures One(i) < One(n)
  {
    if i == n - 1 {
      assert One(n) == 2 * One(i);
    } else {
      OneFits(i, n - 1);
    }
  }

  lemma WithFits(s: Set, p: Permission)
    requires InCatalogue(s)
    ensures InCatalogue(With(s, p))
  {
    if Known(p) {
      OneFits(BitOf(p), SIZE);
      OrFits(s, One(BitOf(p)), SIZE);
    }
  }

  /** The source compares a folder's set with its folder part: equal exactly when every permission in
      it may be granted on a folder. */
  lemma FolderPartIsWhole(s: Set)
    requires InCatalogue(s)
    ensures s == FolderPart(s) <==> forall p :: Has(s, p) ==> FolderScopable(p)
  {
    AndFits(s, One(FOLDER_SCOPABLE) - 1, SIZE);
    forall p
      ensures Has(FolderPart(s), p) <==> Has(s, p) && FolderScopable(p)
    {
      HasFolderPart(s, p);
    }
    if forall p :: Has(s, p) ==> FolderScopable(p) {
      Extensional(s, FolderPart(s));
    }
  }

  /** View: names of what is held globally and on each folder with anything on it. */
  method View(g: Grants) returns (v: GrantsView)
    requires g.Valid()
    ensures forall p :: p in v.global <==> Has(g.global, p)
    ensures forall f :: f in v.folders <==> f in g.folders && g.folders[f] != 0
    ensures forall f :: f in v.folders ==> forall p :: p in v.folders[f] <==> Has(g.folders[f], p)
  {
    var global := Names(g.global);
    var folders: map<string, seq<Permission>> := map[];
    var left := g.folders.Keys;
    while left != {}
      invariant left <= g.folders.Keys
      invariant forall f :: f in folders <==> f in g.folders && f !in left && g.folders[f] != 0
      invariant forall f :: f in folders ==> forall p :: p in folders[f] <==> Has(g.folders[f], p)
    {
      var f :| f in left;
      left := left - {f};
      if g.folders[f] != 0 {
        var names := Names(g.folders[f]);
        folders := folders[f := names];
      }
    }
    v := GrantsView(global, folders);
  }

  ghost predicate FolderOk(key: string, names: seq<Permission>) {
    NormalizeFolder(key).Ok? && forall p :: p in names ==> FolderScopable(p)
  }

  /** What a view means. */
  ghost predicate ViewHeld(v: GrantsView, done: set<string>, p: Permission, job: string) {
    || p in v.global
    || exists key :: key in v.folders && key in done && p in v.folders[key]
                     && NormalizeFolder(key).Ok? && Covers(NormalizeFolder(key).value, job)
  }

  /** FromView accepts exactly the views whose names are known, whose folder keys are valid and whose
      folder grants may be granted on a folder; and what it builds holds what the view says, with
      every source called "view", and can be presented again. */
  method FromView(v: GrantsView) returns (ok: bool, g: Grants)
    ensures fresh(g) && g.Valid()
    ensures ok <==> (forall p :: p in v.global ==> Known(p)) && forall key :: key in v.folders ==> FolderOk(key, v.folders[key])
    ensures ok ==> forall p, job :: Held(g.sources, p, job) <==> ViewHeld(v, v.folders.Keys, p, job)
    ensures FromAView(g.sources) && Presentable(g)
  {
    g := new Grants();
    var global := ParseSet(v.global);
    if global.Err? {
      ViewIsPresentable(g);
      return false, g;
    }
    g.Add("", global.value, "view");
    forall p, job
      ensures Held(g.sources, p, job) <==> ViewHeld(v, {}, p, job)
    {
      HeldPlus([], Source("", global.value, "view"), p, job);
    }
    var keys := SortedElements(v.folders.Keys);
    ghost var done: set<string> := {};
    for i := 0 to |keys|
      invariant fresh(g) && g.Valid() && FromAView(g.sources)
      invariant forall key :: key in done <==> key in keys[..i]
      invariant forall key :: key in done ==> key in v.folders && FolderOk(key, v.folders[key])
      invariant forall p, job :: Held(g.sources, p, job) <==> ViewHeld(v, done, p, job)
    {
      assert keys[i] in keys;
      ok := AddFolder(v, keys[i], g, done);
      if !ok {
        ViewIsPresentable(g);
        return;
      }
      done := done + {keys[i]};
    }
    assert keys[..|keys|] == keys && done == v.folders.Keys;
    ViewIsPresentable(g);
    ok := true;
  }

  /** Sources as FromView makes them: on folders that are normalised, only what may be granted there. */
  ghost predicate FromAView(ss: seq<Source>) {
    forall i :: 0 <= i < |ss| ==> OfAView(ss[i])
  }

  ghost predicate OfAView(s: Source) {
    s.reason == "view" &&
    (s.folder != "" ==> NormalizeFolder(s.folder) == Ok(s.folder) && forall p :: Has(s.perms, p) ==> FolderScopable(p))
  }

  lemma {:induction false} FolderHasASource(ss: seq<Source>, f: string)
    requires f in FoldersOf(ss)
    ensures f != "" && exists i :: 0 <= i < |ss| && ss[i].folder == f
  {
    var front, last := ss[..|ss| - 1], |ss| - 1;
    if f in FoldersOf(front) {
      FolderHasASource(front, f);
      var i :| 0 <= i < |front| && front[i].folder == f;
      assert ss[i].folder == f;
    } else {
      assert ss[last].folder == f;
    }
  }

  lemma ViewIsPresentable(g: Grants)
    requires g.Valid() && FromAView(g.sources)
    ensures Presentable(g)
  {
    forall f | f in g.folders
      ensures NormalizeFolder(f) == Ok(f) && forall p :: Has(g.folders[f], p) ==> FolderScopable(p)
    {
      FolderHasASource(g.sources, f);
      var i :| 0 <= i < |g.sources| && g.sources[i].folder == f;
      assert OfAView(g.sources[i]);
      forall p | Has(g.folders[f], p)
        ensures FolderScopable(p)
      {
        IndexAgrees(g.sources, f, p);
        var j :| 0 <= j < |g.sources| && g.sources[j].folder == f && Has(g.sources[j].perms, p);
        assert OfAView(g.sources[j]);
      }
    }
  }

  method AddFolder(v: GrantsView, key: string, g: Grants, ghost done: set<string>) returns (ok: bool)
    requires g.Valid() && key in v.folders
    requires forall p, job :: Held(g.sources, p, job) <==> ViewHeld(v, done, p, job)
    modifies g
    ensures g.Valid() && (FromAView(old(g.sources)) ==> FromAView(g.sources))
    ensures ok <==> FolderOk(key, v.folders[key])
    ensures ok ==> forall p, job :: Held(g.sources, p, job) <==> ViewHeld(v, done + {key}, p, job)
  {
    var folder := NormalizeFolder(key);
    if folder.Err? {
      return false;
    }
    var set_ := ParseSet(v.folders[key]);
    if set_.Err? {
      return false;
    }
    FolderPartIsWhole(set_.value);
    if set_.value != FolderPart(set_.value) {
      return false;
    }
    ghost var before := g.sources;
    g.Add(folder.value, set_.value, "view");
    NormalizeIsIdempotent(key);
    assert OfAView(Source(folder.value, set_.value, "view"));
    forall p, job
      ensures Held(g.sources, p, job) <==> ViewHeld(v, done + {key}, p, job)
    {
      HeldPlus(before, Source(folder.value, set_.value, "view"), p, job);
      assert Held(before, p, job) <==> ViewHeld(v, done, p, job);
      OneMoreKey(v, done, key, p, job);
    }
    ok := true;
  }

  lemma OneMoreKey(v: GrantsView, done: set<string>, key: string, p: Permission, job: string)
    requires key in v.folders && NormalizeFolder(key).Ok?
    ensures ViewHeld(v, done + {key}, p, job) <==>
            ViewHeld(v, done, p, job) || (p in v.folders[key] && Covers(NormalizeFolder(key).value, job))
  {
  }

  /** Folder keys are normalised and hold only what may be granted on a folder. */
  ghost predicate Presentable(g: Grants)
    reads g
  {
    forall f :: f in g.folders ==>
      NormalizeFolder(f) == Ok(f) && forall p :: Has(g.folders[f], p) ==> FolderScopable(p)
  }

  /** Writing grants out and reading them back changes no decision. */
  method ViewRoundTrip(g: Grants) returns (ok: bool, r: Grants)
    requires g.Valid() && Presentable(g)
    ensures ok && r.Valid()
    ensures forall p, job :: Held(r.sources, p, job) <==> Held(g.sources, p, job)
  {
    var v := View(g);
    forall p | p in v.global
      ensures Known(p)
    {
      assert Has(g.global, p);
    }
    ok, r := FromView(v);
    forall p, job
      ensures Held(r.sources, p, job) <==> Held(g.sources, p, job)
    {
      ViewMeans(g, v, p, job);
    }
  }

  lemma ViewMeans(g: Grants, v: GrantsView, p: Permission, job: string)
    requires g.Valid() && Presentable(g)
    requires forall q :: q in v.global <==> Has(g.global, q)
    requires forall f :: f in v.folders <==> f in g.folders && g.folders[f] != 0
    requires forall f :: f in v.folders ==> forall q :: q in v.folders[f] <==> Has(g.folders[f], q)
    ensures ViewHeld(v, v.folders.Keys, p, job) <==> Held(g.sources, p, job)
  {
    IndexAgrees(g.sources, "", p);
    if Held(g.sources, p, job) {
      var i :| 0 <= i < |g.sources| && Gives(g.sources[i], p, job);
      var f := g.sources[i].folder;
      IndexAgrees(g.sources, f, p);
      HasNothing(p);
      if f != "" {
        assert f in v.folders;
      }
    }
    if key :| key in v.folders && p in v.folders[key] && Covers(key, job) {
      EmptyIsNoFolder();
      IndexAgrees(g.sources, key, p);
      var i :| 0 <= i < |g.sources| && g.sources[i].folder == key && Has(g.sources[i].perms, p);
      assert Gives(g.sources[i], p, job);
    }
    if p in v.global {
      var i :| 0 <= i < |g.sources| && g.sources[i].folder == "" && Has(g.sources[i].perms, p);
      assert Gives(g.sources[i], p, job);
    }
  }

  lemma EmptyIsNoFolder()
    ensures NormalizeFolder("").Err?
  {
    assert Segments("") == [""] && Segments("")[0] == "";
  }
}
