/** The policy compiler and matcher (internal/authz/policy.go, and Bundle of catalogue.go). Errors
    carry no text here, and a reason is not quoted.
  */
module Policies {
  import opened Common
  import opened Sorting
  import opened Permissions
  import opened Folders
  import opened GrantSpec
  import opened GrantSets

  /** A name in a grant: a built-in role, or anything else, read as a permission. */
  datatype Name = Viewer | Developer | Admin | Other(permission: Permission)

  datatype GrantEntry = GrantEntry(key: string, names: seq<Name>)
  datatype PolicyEntry = PolicyEntry(groups: seq<GrantEntry>, users: seq<GrantEntry>)
  datatype FolderEntry = FolderEntry(key: string, entry: PolicyEntry)
  datatype PolicyConfig = PolicyConfig(global: PolicyEntry, folders: seq<FolderEntry>)

  datatype PolicyGrant = PolicyGrant(key: string, set_: Set)
  datatype PolicyScope = PolicyScope(folder: string, groups: seq<PolicyGrant>, users: seq<PolicyGrant>)

  datatype Identity = Identity(values: seq<string>, email: string, sub: string)

  function WithAll(s: Set, ps: seq<Permission>): Set {
    if ps == [] then s else With(WithAll(s, ps[..|ps| - 1]), ps[|ps| - 1])
  }

  function RoleNames(n: Name): seq<Permission>
    requires n.Viewer? || n.Developer?
  {
    var viewer := [JOB_READ, VARS_READ, WEBHOOK_READ, APP_SOURCE_READ, AGENT_READ];
    if n.Viewer? then viewer
    else viewer + [JOB_CONFIGURE, JOB_DELETE, RUN_TRIGGER, RUN_REPLAY, RUN_CANCEL,
                   RUN_DELETE, RUN_APPROVE, SCHEDULE_CONFIGURE, SECRET_LIST, TOKEN_CREATE]
  }

  /** Bundle: the permissions of a built-in role. */
  function Bundle(n: Name): Option<Set> {
    match n
    case Other(_) => None
    case Admin => Some(AllSet())
    case _ => Some(WithAll(0, RoleNames(n)))
  }

  lemma {:induction false} WithAllHas(ps: seq<Permission>, p: Permission)
    ensures Has(WithAll(0, ps), p) <==> p in ps && Known(p)
  {
    if ps == [] {
      HasNothing(p);
    } else {
      WithAllHas(ps[..|ps| - 1], p);
      HasWith(WithAll(0, ps[..|ps| - 1]), ps[|ps| - 1], p);
      assert ps == ps[..|ps| - 1] + [ps[|ps| - 1]];
    }
  }

  /** What a role may do anywhere. */
  ghost predicate RoleGives(n: Name, p: Permission)
    requires !n.Other?
  {
    match n
    case Viewer => p in {JOB_READ, VARS_READ, WEBHOOK_READ, APP_SOURCE_READ, AGENT_READ}
    case Developer =>
      p in {JOB_READ, JOB_CONFIGURE, JOB_DELETE, RUN_TRIGGER, RUN_REPLAY, RUN_CANCEL, RUN_DELETE, RUN_APPROVE,
            SCHEDULE_CONFIGURE, SECRET_LIST, VARS_READ, WEBHOOK_READ, APP_SOURCE_READ, AGENT_READ, TOKEN_CREATE}
    case Admin => Known(p)
  }

  /** The bundle of a role holds exactly what the role may do. */
  lemma BundleMeans(n: Name, p: Permission)
    requires !n.Other?
    ensures Has(Bundle(n).value, p) <==> RoleGives(n, p)
  {
    match n
    case Viewer => WithAllHas(RoleNames(Viewer), p);
    case Developer => WithAllHas(RoleNames(Developer), p);
    case Admin => HasAll(p);
  }

  /** Each role may do what the one below it may. */
  lemma RolesNest(p: Permission)
    ensures Has(Bundle(Viewer).value, p) ==> Has(Bundle(Developer).value, p)
    ensures Has(Bundle(Developer).value, p) ==> Has(Bundle(Admin).value, p)
  {
    BundleMeans(Viewer, p);
    BundleMeans(Developer, p);
    BundleMeans(Admin, p);
  }

  /** Outside jobs and runs, no role but admin may write, manage, audit or enroll anything. */
  lemma AdminOnly(p: Permission)
    ensures p in {SECRET_WRITE, GIT_CREDENTIAL_READ, GIT_CREDENTIAL_WRITE, VARS_WRITE, WEBHOOK_WRITE, APP_SOURCE_WRITE,
                  AGENT_MANAGE, TOKEN_MANAGE, AUDIT_READ, AUTHZ_READ, AGENT_ENROLL}
            <==> Has(Bundle(Admin).value, p) && !Has(Bundle(Developer).value, p)
  {
    BundleMeans(Developer, p);
    BundleMeans(Admin, p);
  }

  // ---------------------------------------------------------------------------------------
  // What a policy means
  // ---------------------------------------------------------------------------------------

  /** The name grants p in the scope `folder` ("" is global): a role what it may do, limited on a folder
      to what may be granted there; a permission itself. */
  ghost predicate NameGives(folder: string, n: Name, p: Permission) {
    match n
    case Other(q) => p == q && Known(q)
    case _ => RoleGives(n, p) && (folder != "" ==> FolderScopable(p))
  }

  ghost predicate SomeNameGives(folder: string, names: seq<Name>, p: Permission) {
    exists i :: 0 <= i < |names| && NameGives(folder, names[i], p)
  }

  ghost predicate EntryGives(folder: string, e: GrantEntry, p: Permission) {
    SomeNameGives(folder, e.names, p)
  }

  /** A group key matches a value of the roles claim; a user key the email or the sub, where there is
      one. */
  ghost predicate MatchesGroup(id: Identity, key: string) {
    exists i :: 0 <= i < |id.values| && id.values[i] == key
  }

  ghost predicate MatchesUser(id: Identity, key: string) {
    key != "" && (id.email == key || id.sub == key)
  }

  /** Some entry of the scope matches the identity and grants p there. */
  ghost predicate ScopeGives(folder: string, e: PolicyEntry, id: Identity, p: Permission) {
    || (exists i :: 0 <= i < |e.groups| && MatchesGroup(id, e.groups[i].key) && EntryGives(folder, e.groups[i], p))
    || (exists i :: 0 <= i < |e.users| && MatchesUser(id, e.users[i].key) && EntryGives(folder, e.users[i], p))
  }

  ghost predicate FolderGives(f: FolderEntry, id: Identity, p: Permission, job: string) {
    && NormalizeFolder(f.key).Ok? && Covers(NormalizeFolder(f.key).value, job)
    && ScopeGives(NormalizeFolder(f.key).value, f.entry, id, p)
  }

  /** The declarative meaning: the global scope gives p, or the scope of a proper ancestor folder of
      the job does. */
  ghost predicate Meaning(cfg: PolicyConfig, id: Identity, p: Permission, job: string) {
    ScopeGives("", cfg.global, id, p) || SomeFolderGives(cfg.folders, id, p, job)
  }

  ghost predicate SomeFolderGives(fs: seq<FolderEntry>, id: Identity, p: Permission, job: string) {
    exists i :: 0 <= i < |fs| && FolderGives(fs[i], id, p, job)
  }

  // ---------------------------------------------------------------------------------------
  // Compiling
  // ---------------------------------------------------------------------------------------

  predicate Acceptable(folder: string, n: Name) {
    n.Other? ==> Known(n.permission) && (folder != "" ==> FolderScopable(n.permission))
  }

  /** A set with what one name gives. */
  function Extended(folder: string, s: Set, n: Name): Set {
    match n
    case Other(q) => With(s, q)
    case _ =>
      var bundle := Bundle(n).value;
      Union(s, if folder == "" then bundle else FolderPart(bundle))
  }

  /** The set of one entry: the union of what its names give. */
  function SetOf(folder: string, names: seq<Name>): Set {
    if names == [] then 0 else Extended(folder, SetOf(folder, names[..|names| - 1]), names[|names| - 1])
  }

  lemma {:induction false} SetOfMeans(folder: string, names: seq<Name>, p: Permission)
    ensures Has(SetOf(folder, names), p) <==> SomeNameGives(folder, names, p)
  {
    if names == [] {
      HasNothing(p);
    } else {
      var front, n := names[..|names| - 1], names[|names| - 1];
      SetOfMeans(folder, front, p);
      OneMoreGiver(folder, names, p);
      OneMoreName(folder, SetOf(folder, front), n, p);
    }
  }

  lemma OneMoreGiver(folder: string, names: seq<Name>, p: Permission)
    requires names != []
    ensures SomeNameGives(folder, names, p) <==>
            SomeNameGives(folder, names[..|names| - 1], p) || NameGives(folder, names[|names| - 1], p)
  {
    assert forall i :: 0 <= i < |names| - 1 ==> names[..|names| - 1][i] == names[i];
  }

  lemma OneMoreName(folder: string, s: Set, n: Name, p: Permission)
    ensures Has(Extended(folder, s, n), p) <==> Has(s, p) || NameGives(folder, n, p)
  {
    match n
    case Other(q) => HasWith(s, q, p);
    case _ =>
      var bundle := Bundle(n).value;
      HasUnion(s, if folder == "" then bundle else FolderPart(bundle), p);
      HasFolderPart(bundle, p);
      BundleMeans(n, p);
  }

  ghost predicate EntryOk(folder: string, e: GrantEntry) {
    e.names != [] && forall k :: 0 <= k < |e.names| ==> Acceptable(folder, e.names[k])
  }

  ghost predicate EntriesOk(folder: string, es: seq<GrantEntry>) {
    forall i :: 0 <= i < |es| ==> EntryOk(folder, es[i])
  }

  function CompiledGrant(folder: string, e: GrantEntry): PolicyGrant {
    PolicyGrant(e.key, SetOf(folder, e.names))
  }

  function CompiledGrants(folder: string, es: seq<GrantEntry>): seq<PolicyGrant> {
    seq(|es|, i requires 0 <= i < |es| => CompiledGrant(folder, es[i]))
  }

  /** compileGrants: an entry without names, an unknown name, or a global-only permission on a folder
      is an error. */
  method CompileGrants(folder: string, es: seq<GrantEntry>) returns (ok: bool, out: seq<PolicyGrant>)
    ensures ok <==> EntriesOk(folder, es)
    ensures ok ==> out == CompiledGrants(folder, es)
  {
    out := [];
    for i := 0 to |es|
      invariant forall j :: 0 <= j < i ==> EntryOk(folder, es[j])
      invariant |out| == i && forall j :: 0 <= j < i ==> out[j] == CompiledGrant(folder, es[j])
    {
      var good, grant := CompileEntry(folder, es[i]);
      if !good {
        return false, out;
      }
      out := out + [grant];
    }
    ok := true;
  }

  /** One entry: the loop over its names. */
  method CompileEntry(folder: string, e: GrantEntry) returns (ok: bool, grant: PolicyGrant)
    ensures ok <==> EntryOk(folder, e)
    ensures ok ==> grant == CompiledGrant(folder, e)
  {
    grant := PolicyGrant(e.key, 0);
    if |e.names| == 0 {
      return false, grant;
    }
    for k := 0 to |e.names|
      invariant forall j :: 0 <= j < k ==> Acceptable(folder, e.names[j])
      invariant grant == PolicyGrant(e.key, SetOf(folder, e.names[..k]))
    {
      assert e.names[..k + 1][..k] == e.names[..k];
      var good, s := CompileName(folder, grant.set_, e.names[k]);
      if !good {
        return false, grant;
      }
      grant := PolicyGrant(e.key, s);
    }
    assert e.names[..|e.names|] == e.names;
    ok := true;
  }

  method CompileName(folder: string, before: Set, n: Name) returns (ok: bool, s: Set)
    ensures ok <==> Acceptable(folder, n)
    ensures ok ==> s == Extended(folder, before, n)
  {
    var bundle := Bundle(n);
    if bundle.Some? {
      return true, Union(before, if folder != "" then FolderPart(bundle.value) else bundle.value);
    }
    if !Known(n.permission) || (folder != "" && !FolderScopable(n.permission)) {
      return false, before;
    }
    return true, With(before, n.permission);
  }

  function CompiledScope(folder: string, e: PolicyEntry): PolicyScope {
    PolicyScope(folder, CompiledGrants(folder, e.groups), CompiledGrants(folder, e.users))
  }

  ghost predicate ScopeOk(folder: string, e: PolicyEntry) {
    EntriesOk(folder, e.groups) && EntriesOk(folder, e.users)
  }

  ghost predicate FolderEntryOk(f: FolderEntry) {
    && NormalizeFolder(f.key).Ok? && (f.entry.groups != [] || f.entry.users != [])
    && ScopeOk(NormalizeFolder(f.key).value, f.entry)
  }

  function FolderOf(f: FolderEntry): string {
    match NormalizeFolder(f.key)
    case Ok(folder) => folder
    case Err(_) => ""
  }

  ghost predicate FoldersOk(fs: seq<FolderEntry>) {
    && (forall i :: 0 <= i < |fs| ==> FolderEntryOk(fs[i]))
    && (forall i, j :: 0 <= i < j < |fs| ==> FolderOf(fs[i]) != FolderOf(fs[j]))
  }

  /** What Compile accepts. */
  ghost predicate ConfigOk(cfg: PolicyConfig) {
    ScopeOk("", cfg.global) && FoldersOk(cfg.folders)
  }

  /** What an accepted policy looks like: every entry names something, every name is a role or a known
      permission, a folder only grants single permissions that may be granted there, has an entry, and
      is there once under whatever spelling. */
  lemma AcceptedPolicy(cfg: PolicyConfig, i: nat)
    requires ConfigOk(cfg) && i < |cfg.folders|
    ensures var f := cfg.folders[i];
            && NormalizeFolder(f.key).Ok? && |f.entry.groups| + |f.entry.users| > 0
            && (forall j :: 0 <= j < |cfg.folders| && j != i ==> NormalizeFolder(cfg.folders[j].key) != NormalizeFolder(f.key))
            && (forall e, q :: (e in f.entry.groups || e in f.entry.users) && Other(q) in e.names ==> FolderScopable(q))
            && (forall e :: e in f.entry.groups || e in f.entry.users ==> e.names != [])
    ensures forall e, q :: (e in cfg.global.groups || e in cfg.global.users) && Other(q) in e.names ==> Known(q)
    ensures forall e :: e in cfg.global.groups || e in cfg.global.users ==> e.names != []
  {
    var f := cfg.folders[i];
    assert FolderEntryOk(f);
    forall j | 0 <= j < |cfg.folders| && j != i
      ensures NormalizeFolder(cfg.folders[j].key) != NormalizeFolder(f.key)
    {
      assert FolderEntryOk(cfg.folders[j]);
      assert FolderOf(cfg.folders[if i < j then i else j]) != FolderOf(cfg.folders[if i < j then j else i]);
    }
    NormalizeIsIdempotent(f.key);
    EntriesAccepted(NormalizeFolder(f.key).value, f.entry.groups);
    EntriesAccepted(NormalizeFolder(f.key).value, f.entry.users);
    EntriesAccepted("", cfg.global.groups);
    EntriesAccepted("", cfg.global.users);
  }

  lemma EntriesAccepted(folder: string, es: seq<GrantEntry>)
    requires EntriesOk(folder, es)
    ensures forall e :: e in es ==> e.names != []
    ensures forall e, q :: e in es && Other(q) in e.names ==> Known(q) && (folder != "" ==> FolderScopable(q))
  {
    forall e | e in es
      ensures EntryOk(folder, e)
    {
      var i :| 0 <= i < |es| && es[i] == e;
    }
    forall e, q | e in es && Other(q) in e.names
      ensures Known(q) && (folder != "" ==> FolderScopable(q))
    {
      var k :| 0 <= k < |e.names| && e.names[k] == Other(q);
      assert Acceptable(folder, e.names[k]);
    }
  }

  function CompiledFolders(fs: seq<FolderEntry>): seq<PolicyScope> {
    if fs == [] then []
    else CompiledFolders(fs[..|fs| - 1]) + [CompiledScope(FolderOf(fs[|fs| - 1]), fs[|fs| - 1].entry)]
  }

  function CompiledPolicy(cfg: PolicyConfig): seq<PolicyScope> {
    [CompiledScope("", cfg.global)] + CompiledFolders(cfg.folders)
  }

  method CompileScope(folder: string, e: PolicyEntry) returns (ok: bool, s: PolicyScope)
    ensures ok <==> ScopeOk(folder, e)
    ensures ok ==> s == CompiledScope(folder, e)
  {
    var okGroups, groups := CompileGrants(folder, e.groups);
    var okUsers, users := CompileGrants(folder, e.users);
    ok, s := okGroups && okUsers, PolicyScope(folder, groups, users);
  }

  /** A legacy role value that is reported: neither a built-in role nor a way to say none. */
  predicate UnknownRole(role: string) {
    role != "" && role != "deny" && role != "admin" && role != "developer" && role != "viewer"
  }

  /** legacyRoleLines: the keys of roleMap with an unknown role, in order. */
  method LegacyRoleLines(roleMap: map<string, string>) returns (lines: seq<string>)
    ensures Ascending(lines)
    ensures forall k :: k in lines <==> k in roleMap && roleMap[k] !in {"", "deny", "admin", "developer", "viewer"}
  {
    var keys := SortedElements(roleMap.Keys);
    lines := [];
    for i := 0 to |keys|
      invariant forall k :: k in lines <==> k in keys[..i] && UnknownRole(roleMap[k])
      invariant Ascending(lines)
    {
      assert keys[i] in keys;
      forall k | k in lines
        ensures Less(k, keys[i])
      {
        assert k in keys[..i];
      }
      if UnknownRole(roleMap[keys[i]]) {
        lines := lines + [keys[i]];
      }
    }
    assert keys[..|keys|] == keys;
  }

  /** Compile. Without a policy, unknown legacy roles are only warned about. With one, it needs an
      issuer, no unknown legacy role and an acceptable configuration, and then each scope is compiled
      in order. */
  method Compile(cfg: Option<PolicyConfig>, roleMap: map<string, string>, issuer: string)
    returns (ok: bool, scopes: seq<PolicyScope>, warnings: seq<string>)
    ensures cfg.None? ==> ok && scopes == []
    ensures cfg.None? ==> Ascending(warnings) && forall k :: k in warnings <==> k in roleMap && UnknownRole(roleMap[k])
    ensures cfg.Some? ==> (ok <==> issuer != "" && (forall k :: k in roleMap ==> !UnknownRole(roleMap[k])) && ConfigOk(cfg.value))
    ensures cfg.Some? ==> warnings == [] && (ok ==> scopes == CompiledPolicy(cfg.value))
  {
    scopes, warnings := [], [];
    var lines := LegacyRoleLines(roleMap);
    if cfg.None? {
      return true, scopes, lines;
    }
    if issuer == "" {
      return false, scopes, warnings;
    }
    if |lines| > 0 {
      assert lines[0] in lines;
      return false, scopes, warnings;
    }
    var okGlobal, global := CompileScope("", cfg.value.global);
    if !okGlobal {
      return false, scopes, warnings;
    }
    ok, scopes := CompileFolders(cfg.value.folders);
    scopes := [global] + scopes;
  }

  ghost function SeenFolders(fs: seq<FolderEntry>): set<string> {
    set i | 0 <= i < |fs| :: FolderOf(fs[i])
  }

  /** The folder loop of Compile, with the folders already seen. */
  method CompileFolders(fs: seq<FolderEntry>) returns (ok: bool, scopes: seq<PolicyScope>)
    ensures ok <==> FoldersOk(fs)
    ensures ok ==> scopes == CompiledFolders(fs)
  {
    scopes := [];
    var seen: set<string> := {};
    for i := 0 to |fs|
      invariant FoldersOk(fs[..i])
      invariant seen == SeenFolders(fs[..i])
      invariant scopes == CompiledFolders(fs[..i])
    {
      OneMoreFolder(fs, i);
      var good, scope := CompileFolder(fs[i], seen);
      if !good {
        return false, scopes;
      }
      seen := seen + {scope.folder};
      scopes := scopes + [scope];
    }
    assert fs[..|fs|] == fs;
    ok := true;
  }

  /** One turn of that loop. */
  method CompileFolder(f: FolderEntry, seen: set<string>) returns (ok: bool, scope: PolicyScope)
    ensures ok <==> FolderEntryOk(f) && FolderOf(f) !in seen
    ensures ok ==> scope == CompiledScope(FolderOf(f), f.entry)
  {
    scope := PolicyScope("", [], []);
    var folder := NormalizeFolder(f.key);
    if folder.Err? || folder.value in seen {
      return false, scope;
    }
    if |f.entry.groups| == 0 && |f.entry.users| == 0 {
      return false, scope;
    }
    ok, scope := CompileScope(folder.value, f.entry);
  }

  /** A folder list is acceptable as far as its first i + 1 entries exactly when it is as far as the
      first i, and the next is acceptable and new. */
  lemma OneMoreFolder(fs: seq<FolderEntry>, i: nat)
    requires i < |fs|
    ensures FoldersOk(fs[..i + 1]) <==> FoldersOk(fs[..i]) && FolderEntryOk(fs[i]) && FolderOf(fs[i]) !in SeenFolders(fs[..i])
    ensures SeenFolders(fs[..i + 1]) == SeenFolders(fs[..i]) + {FolderOf(fs[i])}
    ensures CompiledFolders(fs[..i + 1]) == CompiledFolders(fs[..i]) + [CompiledScope(FolderOf(fs[i]), fs[i].entry)]
    ensures !FoldersOk(fs[..i + 1]) ==> !FoldersOk(fs)
  {
    assert fs[..i + 1] == fs[..i] + [fs[i]] && fs[..i + 1][..i] == fs[..i];
    FoldersOkSnoc(fs[..i], fs[i]);
    FoldersOkPrefix(fs, i + 1);
  }

  lemma FoldersOkSnoc(fs: seq<FolderEntry>, f: FolderEntry)
    ensures FoldersOk(fs + [f]) <==> FoldersOk(fs) && FolderEntryOk(f) && FolderOf(f) !in SeenFolders(fs)
    ensures SeenFolders(fs + [f]) == SeenFolders(fs) + {FolderOf(f)}
  {
    var more := fs + [f];
    assert forall j :: 0 <= j < |fs| ==> more[j] == fs[j];
    assert more[|fs|] == f;
    if FoldersOk(more) {
      assert forall j :: 0 <= j < |fs| ==> FolderOf(more[j]) != FolderOf(more[|fs|]);
    }
  }

  lemma FoldersOkPrefix(fs: seq<FolderEntry>, i: nat)
    requires i <= |fs|
    ensures FoldersOk(fs) ==> FoldersOk(fs[..i])
  {
  }

  // ---------------------------------------------------------------------------------------
  // Matching
  // ---------------------------------------------------------------------------------------

  function Reason(folder: string, kind: string, key: string): string {
    (if folder == "" then "global" else "folder:" + folder) + " (" + kind + "[" + key + "])"
  }

  /** A reason names the scope, the kind of entry and its key. */
  lemma ReasonText(folder: string, kind: string, key: string)
    ensures folder == "" ==> Reason(folder, kind, key) == "global (" + kind + "[" + key + "])"
    ensures folder != "" ==> Reason(folder, kind, key) == "folder:" + folder + " (" + kind + "[" + key + "])"
  {
  }

  /** The group keys an identity matches. */
  function GroupKeys(id: Identity): set<string> {
    set v | v in id.values
  }

  /** The user keys it matches. */
  function UserKeys(id: Identity): set<string> {
    (if id.email == "" then {} else {id.email}) + (if id.sub == "" then {} else {id.sub})
  }

  lemma KeysMean(id: Identity, key: string)
    ensures key in GroupKeys(id) <==> MatchesGroup(id, key)
    ensures key in UserKeys(id) <==> MatchesUser(id, key)
  {
  }

  /** The grants of the entries whose key matches, added in order. */
  function WithMatching(ss: seq<Source>, folder: string, kind: string, gs: seq<PolicyGrant>, keys: set<string>): seq<Source> {
    if gs == [] then ss
    else
      var before, g := WithMatching(ss, folder, kind, gs[..|gs| - 1], keys), gs[|gs| - 1];
      if g.key in keys then Plus(before, Source(folder, g.set_, Reason(folder, kind, g.key))) else before
  }

  function WithScope(ss: seq<Source>, s: PolicyScope, id: Identity): seq<Source> {
    WithMatching(WithMatching(ss, s.folder, "groups", s.groups, GroupKeys(id)), s.folder, "users", s.users, UserKeys(id))
  }

  /** The grants Match adds, scope by scope, groups before users. */
  function Matched(scopes: seq<PolicyScope>, id: Identity): seq<Source> {
    if scopes == [] then [] else WithScope(Matched(scopes[..|scopes| - 1], id), scopes[|scopes| - 1], id)
  }

  /** Some entry of the list has a key that matches. */
  ghost predicate AnyMatches(gs: seq<PolicyGrant>, keys: set<string>) {
    exists i :: 0 <= i < |gs| && gs[i].key in keys
  }

  /** Some entry of the scope matches the identity. */
  ghost predicate ScopeMatches(s: PolicyScope, id: Identity) {
    || (exists i :: 0 <= i < |s.groups| && MatchesGroup(id, s.groups[i].key))
    || (exists i :: 0 <= i < |s.users| && MatchesUser(id, s.users[i].key))
  }

  lemma ScopeMatchesKeys(s: PolicyScope, id: Identity)
    ensures ScopeMatches(s, id) <==> AnyMatches(s.groups, GroupKeys(id)) || AnyMatches(s.users, UserKeys(id))
  {
    forall key
      ensures key in GroupKeys(id) <==> MatchesGroup(id, key)
      ensures key in UserKeys(id) <==> MatchesUser(id, key)
    {
      KeysMean(id, key);
    }
  }

  /** Match: what every matching entry grants, and whether any matched. */
  method Match(scopes: seq<PolicyScope>, id: Identity) returns (g: Grants, matched: bool)
    ensures fresh(g) && g.Valid() && g.sources == Matched(scopes, id)
    ensures matched <==> exists i :: 0 <= i < |scopes| && ScopeMatches(scopes[i], id)
  {
    g := new Grants();
    matched := false;
    for i := 0 to |scopes|
      invariant fresh(g) && g.Valid() && g.sources == Matched(scopes[..i], id)
      invariant matched <==> exists k :: 0 <= k < i && ScopeMatches(scopes[k], id)
    {
      assert scopes[..i + 1][..i] == scopes[..i];
      var groups := AddMatching(g, scopes[i].folder, "groups", scopes[i].groups, GroupKeys(id));
      var users := AddMatching(g, scopes[i].folder, "users", scopes[i].users, UserKeys(id));
      ScopeMatchesKeys(scopes[i], id);
      matched := matched || groups || users;
    }
    assert scopes[..|scopes|] == scopes;
  }

  method AddMatching(g: Grants, folder: string, kind: string, gs: seq<PolicyGrant>, keys: set<string>) returns (matched: bool)
    requires g.Valid()
    modifies g
    ensures g.Valid() && g.sources == WithMatching(old(g.sources), folder, kind, gs, keys)
    ensures matched <==> AnyMatches(gs, keys)
  {
    matched := false;
    for i := 0 to |gs|
      invariant g.Valid() && g.sources == WithMatching(old(g.sources), folder, kind, gs[..i], keys)
      invariant matched <==> exists k :: 0 <= k < i && gs[k].key in keys
    {
      assert gs[..i + 1][..i] == gs[..i];
      if gs[i].key in keys {
        matched := true;
        g.Add(folder, gs[i].set_, Reason(folder, kind, gs[i].key));
      }
    }
    assert gs[..|gs|] == gs;
  }

  // ---------------------------------------------------------------------------------------
  // Compiling and matching preserve meaning
  // ---------------------------------------------------------------------------------------

  ghost predicate SomeGives(folder: string, es: seq<GrantEntry>, keys: set<string>, p: Permission) {
    exists i :: 0 <= i < |es| && es[i].key in keys && EntryGives(folder, es[i], p)
  }

  lemma KeysMatch(folder: string, e: PolicyEntry, id: Identity, p: Permission)
    ensures ScopeGives(folder, e, id, p) <==>
            SomeGives(folder, e.groups, GroupKeys(id), p) || SomeGives(folder, e.users, UserKeys(id), p)
  {
    forall key
      ensures key in GroupKeys(id) <==> MatchesGroup(id, key)
      ensures key in UserKeys(id) <==> MatchesUser(id, key)
    {
      KeysMean(id, key);
    }
  }

  predicate Reaches(folder: string, job: string) {
    folder == "" || Covers(folder, job)
  }

  lemma OneMoreEntry(folder: string, es: seq<GrantEntry>, keys: set<string>, p: Permission)
    requires es != []
    ensures var e := es[|es| - 1];
            SomeGives(folder, es, keys, p) <==>
            SomeGives(folder, es[..|es| - 1], keys, p) || (e.key in keys && EntryGives(folder, e, p))
  {
  }

  lemma {:induction false} MatchingMeans(ss: seq<Source>, folder: string, kind: string, es: seq<GrantEntry>, keys: set<string>, p: Permission, job: string)
    ensures Held(WithMatching(ss, folder, kind, CompiledGrants(folder, es), keys), p, job) <==>
            Held(ss, p, job) || (Reaches(folder, job) && SomeGives(folder, es, keys, p))
  {
    if es != [] {
      var front, e := es[..|es| - 1], es[|es| - 1];
      MatchingMeans(ss, folder, kind, front, keys, p, job);
      OneMoreEntry(folder, es, keys, p);
      var gs := CompiledGrants(folder, front);
      assert CompiledGrants(folder, es)[..|gs|] == gs;
      SetOfMeans(folder, e.names, p);
      HeldPlus(WithMatching(ss, folder, kind, gs, keys),
               Source(folder, SetOf(folder, e.names), Reason(folder, kind, e.key)), p, job);
    }
  }

  lemma MatchScopeMeans(scopes: seq<PolicyScope>, folder: string, e: PolicyEntry, id: Identity, p: Permission, job: string)
    ensures Held(Matched(scopes + [CompiledScope(folder, e)], id), p, job) <==>
            Held(Matched(scopes, id), p, job) || (Reaches(folder, job) && ScopeGives(folder, e, id, p))
  {
    var s := CompiledScope(folder, e);
    var before := Matched(scopes, id);
    assert (scopes + [s])[..|scopes|] == scopes;
    KeysMatch(folder, e, id, p);
    MatchingMeans(before, folder, "groups", e.groups, GroupKeys(id), p, job);
    MatchingMeans(WithMatching(before, folder, "groups", s.groups, GroupKeys(id)), folder, "users", e.users, UserKeys(id), p, job);
  }

  lemma {:induction false} FoldersMean(global: PolicyEntry, fs: seq<FolderEntry>, id: Identity, p: Permission, job: string)
    requires forall i :: 0 <= i < |fs| ==> NormalizeFolder(fs[i].key).Ok?
    ensures Held(Matched([CompiledScope("", global)] + CompiledFolders(fs), id), p, job) <==>
            ScopeGives("", global, id, p) || SomeFolderGives(fs, id, p, job)
  {
    var first := [CompiledScope("", global)];
    if fs == [] {
      MatchScopeMeans([], "", global, id, p, job);
      assert first + CompiledFolders(fs) == [] + first;
    } else {
      var front, f := fs[..|fs| - 1], fs[|fs| - 1];
      FoldersMean(global, front, id, p, job);
      NormalizeIsIdempotent(f.key);
      MatchScopeMeans(first + CompiledFolders(front), FolderOf(f), f.entry, id, p, job);
      assert first + CompiledFolders(fs) == first + CompiledFolders(front) + [CompiledScope(FolderOf(f), f.entry)];
      OneMoreGives(fs, id, p, job);
    }
  }

  lemma OneMoreGives(fs: seq<FolderEntry>, id: Identity, p: Permission, job: string)
    requires fs != []
    ensures SomeFolderGives(fs, id, p, job) <==>
            SomeFolderGives(fs[..|fs| - 1], id, p, job) || FolderGives(fs[|fs| - 1], id, p, job)
  {
  }

  /** For every accepted policy, identity, permission and job: what the compiled policy grants is what
      the configuration means. */
  lemma MeaningPreserved(cfg: PolicyConfig, id: Identity, p: Permission, job: string)
    requires ConfigOk(cfg)
    ensures Held(Matched(CompiledPolicy(cfg), id), p, job) <==> Meaning(cfg, id, p, job)
  {
    FoldersMean(cfg.global, cfg.folders, id, p, job);
  }

  /** The whole decision: compile, match, ask. */
  method Authorize(cfg: PolicyConfig, roleMap: map<string, string>, issuer: string, id: Identity, p: Permission, job: string)
    returns (ok: bool, can: bool)
    ensures ok <==> issuer != "" && (forall k :: k in roleMap ==> !UnknownRole(roleMap[k])) && ConfigOk(cfg)
    ensures ok ==> (can <==> Meaning(cfg, id, p, job))
  {
    var scopes, warnings;
    ok, scopes, warnings := Compile(Some(cfg), roleMap, issuer);
    can := false;
    if ok {
      var g, matched := Match(scopes, id);
      can := g.Can(p, job);
      MeaningPreserved(cfg, id, p, job);
    }
  }
}
