/** The assignment search of internal/agent/volumes.go: one volume for each volume entry of a job.

    A set of names stands for the Go predicate `usable` (or `free`, `avoid`): the names on which
    it answers true.
  */
module VolumeSearch {
  import opened Common

  type Name = string
  type Entries = seq<seq<Name>>

  /** maxVolumeSearchNodes: the most calls of the recursive search that do any work. */
  const MAX_SEARCH_NODES: nat := 20_000

  datatype Problem = Problem(sets: Entries, usable: set<Name>, alias: bool)

  /** Every name some entry lists. */
  function Names(sets: Entries): set<Name> {
    set i, k | 0 <= i < |sets| && 0 <= k < |sets[i]| :: sets[i][k]
  }

  ghost predicate EveryEntryHasACandidate(sets: Entries) {
    forall i :: 0 <= i < |sets| ==> sets[i] != []
  }

  // ---------------------------------------------------------------------------------------
  // What an assignment is, without reference to any search
  // ---------------------------------------------------------------------------------------

  /** A system of distinct representatives: one usable candidate per entry, no volume twice. */
  ghost predicate Distinct(sets: Entries, usable: set<Name>, c: seq<Name>) {
    && |c| == |sets|
    && (forall i :: 0 <= i < |c| ==> c[i] in sets[i] && c[i] in usable)
    && (forall i, j :: 0 <= i < j < |c| ==> c[i] != c[j])
  }

  /** `pick` is an unused usable candidate or, when aliasing is allowed and every candidate is
      already chosen by an earlier entry, the first candidate. */
  ghost predicate Fits(candidates: seq<Name>, usable: set<Name>, alias: bool, earlier: seq<Name>, pick: Name) {
    || (pick in candidates && pick in usable && pick !in earlier)
    || (alias && candidates != [] && pick == candidates[0] && forall n | n in candidates :: n in earlier)
  }

  ghost predicate Assignment(p: Problem, c: seq<Name>) {
    |c| == |p.sets| && FitsUpTo(p, c)
  }

  ghost predicate FitsUpTo(p: Problem, c: seq<Name>) {
    |c| <= |p.sets| && forall i :: 0 <= i < |c| ==> Fits(p.sets[i], p.usable, p.alias, c[..i], c[i])
  }

  /** Without aliasing, an assignment is exactly a system of distinct representatives. */
  lemma AssignmentIsDistinct(p: Problem, c: seq<Name>)
    requires !p.alias
    ensures Assignment(p, c) <==> Distinct(p.sets, p.usable, c)
  {
  }

  /** With aliasing too, every entry gets one of its own candidates, and it is usable. */
  lemma {:induction false} AssignmentUsesUsableCandidates(p: Problem, c: seq<Name>, i: nat)
    requires FitsUpTo(p, c) && i < |c|
    ensures c[i] in p.sets[i] && c[i] in p.usable
  {
    assert Fits(p.sets[i], p.usable, p.alias, c[..i], c[i]);
    if c[i] in c[..i] {
      var j :| 0 <= j < i && c[..i][j] == c[i];
      AssignmentUsesUsableCandidates(p, c, j);
    }
  }

  /** The counting shortcut is sound: n distinct volumes need n usable names. */
  lemma Pigeonhole(sets: Entries, usable: set<Name>, c: seq<Name>)
    requires Distinct(sets, usable, c)
    ensures |sets| <= |Names(sets) * usable|
  {
    var image := set n | n in c;
    DistinctCount(c);
    forall n | n in image
      ensures n in Names(sets) * usable
    {
      var i :| 0 <= i < |c| && c[i] == n;
      var k :| 0 <= k < |sets[i]| && sets[i][k] == n;
    }
    SubsetCount(image, Names(sets) * usable);
  }

  lemma {:induction false} DistinctCount(c: seq<Name>)
    requires forall i, j :: 0 <= i < j < |c| ==> c[i] != c[j]
    ensures |set n | n in c| == |c|
  {
    if c != [] {
      var last := |c| - 1;
      DistinctCount(c[..last]);
      assert (set n | n in c) == (set n | n in c[..last]) + {c[last]};
    }
  }

  lemma SubsetCount<T>(a: set<T>, b: set<T>)
    requires a <= b
    ensures |a| <= |b|
  {
    assert b == a + (b - a);
  }

  // ---------------------------------------------------------------------------------------
  // The search as a function, with no budget, and what it costs
  // ---------------------------------------------------------------------------------------

  /** What a complete search answers, and how many calls it takes. */
  datatype Searched = Searched(found: Option<seq<Name>>, cost: nat)

  /** The call rec(|prefix|), run to the end. */
  function Explore(p: Problem, prefix: seq<Name>): Searched
    requires |prefix| <= |p.sets|
    requires p.alias ==> forall i :: 0 <= i < |p.sets| ==> p.sets[i] != []
    decreases |p.sets| - |prefix|, 1, 0
  {
    if |prefix| == |p.sets| then Searched(Some(prefix), 1)
    else var rest := Try(p, prefix, 0); Searched(rest.found, 1 + rest.cost)
  }

  /** The candidate loop of that call, from candidate k on. */
  function Try(p: Problem, prefix: seq<Name>, k: nat): Searched
    requires |prefix| < |p.sets| && k <= |p.sets[|prefix|]|
    requires p.alias ==> forall i :: 0 <= i < |p.sets| ==> p.sets[i] != []
    decreases |p.sets| - |prefix|, 0, |p.sets[|prefix|]| - k
  {
    var candidates := p.sets[|prefix|];
    if k == |candidates| then
      if p.alias && forall n | n in candidates :: n in prefix
      then Explore(p, prefix + [candidates[0]])
      else Searched(None, 0)
    else if candidates[k] in prefix || candidates[k] !in p.usable then Try(p, prefix, k + 1)
    else
      var sub := Explore(p, prefix + [candidates[k]]);
      if sub.found.Some? then sub
      else var rest := Try(p, prefix, k + 1); Searched(rest.found, sub.cost + rest.cost)
  }

  ghost predicate Searchable(p: Problem) {
    p.alias ==> EveryEntryHasACandidate(p.sets)
  }

  /** Whatever the search finds is an assignment that extends the prefix it started from. */
  lemma {:induction false} ExploreSound(p: Problem, prefix: seq<Name>)
    requires Searchable(p) && FitsUpTo(p, prefix)
    ensures var r := Explore(p, prefix).found;
            r.Some? ==> prefix <= r.value && Assignment(p, r.value)
    decreases |p.sets| - |prefix|, 1, 0
  {
    if |prefix| < |p.sets| {
      TrySound(p, prefix, 0);
    }
  }

  lemma {:induction false} TrySound(p: Problem, prefix: seq<Name>, k: nat)
    requires Searchable(p) && FitsUpTo(p, prefix) && |prefix| < |p.sets| && k <= |p.sets[|prefix|]|
    ensures var r := Try(p, prefix, k).found;
            r.Some? ==> prefix <= r.value && Assignment(p, r.value)
    decreases |p.sets| - |prefix|, 0, |p.sets[|prefix|]| - k
  {
    var candidates := p.sets[|prefix|];
    if k == |candidates| {
      if p.alias && forall n | n in candidates :: n in prefix {
        Extend(p, prefix, candidates[0]);
        ExploreSound(p, prefix + [candidates[0]]);
      }
    } else {
      TrySound(p, prefix, k + 1);
      if candidates[k] !in prefix && candidates[k] in p.usable {
        Extend(p, prefix, candidates[k]);
        ExploreSound(p, prefix + [candidates[k]]);
      }
    }
  }

  lemma Extend(p: Problem, prefix: seq<Name>, pick: Name)
    requires FitsUpTo(p, prefix) && |prefix| < |p.sets|
    requires Fits(p.sets[|prefix|], p.usable, p.alias, prefix, pick)
    ensures FitsUpTo(p, prefix + [pick])
  {
  }

  /** Position of the first occurrence of n. */
  function IndexOf(s: seq<Name>, n: Name): (k: nat)
    requires n in s
    ensures k < |s| && s[k] == n && n !in s[..k]
  {
    if s[0] == n then 0 else
      assert s == [s[0]] + s[1..];
      var k := 1 + IndexOf(s[1..], n);
      assert s[..k] == [s[0]] + s[1..][..k - 1];
      k
  }

  /** c comes no later than d when assignments are ordered by candidate position, entry by entry. */
  ghost predicate NoLater(sets: Entries, c: seq<Name>, d: seq<Name>) {
    c == d || exists i :: EarlierAt(sets, c, d, i)
  }

  ghost predicate EarlierAt(sets: Entries, c: seq<Name>, d: seq<Name>, i: int) {
    && 0 <= i < |sets| && i < |c| && i < |d|
    && c[..i] == d[..i] && c[i] in sets[i] && d[i] in sets[i]
    && IndexOf(sets[i], c[i]) < IndexOf(sets[i], d[i])
  }

  /** The search misses nothing: if any assignment extends the prefix, it finds one, and the one
      it finds is the first in candidate order. */
  lemma {:induction false} ExploreFindsFirst(p: Problem, prefix: seq<Name>, d: seq<Name>)
    requires Searchable(p) && FitsUpTo(p, prefix)
    requires Assignment(p, d) && prefix <= d
    ensures var r := Explore(p, prefix).found; r.Some? && NoLater(p.sets, r.value, d)
    decreases |p.sets| - |prefix|, 1, 0
  {
    if |prefix| < |p.sets| {
      TryFindsFirst(p, prefix, 0, d);
    }
  }

  lemma {:induction false} TryFindsFirst(p: Problem, prefix: seq<Name>, k: nat, d: seq<Name>)
    requires Searchable(p) && FitsUpTo(p, prefix) && |prefix| < |p.sets| && k <= |p.sets[|prefix|]|
    requires Assignment(p, d) && prefix <= d
    requires d[|prefix|] !in prefix ==> d[|prefix|] !in p.sets[|prefix|][..k]
    ensures var r := Try(p, prefix, k).found; r.Some? && NoLater(p.sets, r.value, d)
    decreases |p.sets| - |prefix|, 0, |p.sets[|prefix|]| - k
  {
    var i := |prefix|;
    var candidates := p.sets[i];
    assert d[..i] == prefix;
    assert Fits(candidates, p.usable, p.alias, prefix, d[i]);
    if k == |candidates| {
      assert candidates[..k] == candidates;
      assert d[i] in prefix;
      Extend(p, prefix, candidates[0]);
      ExploreFindsFirst(p, prefix + [candidates[0]], d);
    } else if candidates[k] in prefix || candidates[k] !in p.usable {
      assert candidates[..k + 1] == candidates[..k] + [candidates[k]];
      TryFindsFirst(p, prefix, k + 1, d);
    } else {
      assert d[i] !in prefix;
      Extend(p, prefix, candidates[k]);
      if candidates[k] == d[i] {
        ExploreFindsFirst(p, prefix + [candidates[k]], d);
      } else {
        assert candidates[..k + 1] == candidates[..k] + [candidates[k]];
        TryFindsFirst(p, prefix, k + 1, d);
        ExploreSound(p, prefix + [candidates[k]]);
        var r := Explore(p, prefix + [candidates[k]]).found;
        if r.Some? {
          assert r.value[i] == candidates[k] && r.value[..i] == prefix;
          assert IndexOf(candidates, candidates[k]) <= k;
          assert k < IndexOf(candidates, d[i]);
          assert EarlierAt(p.sets, r.value, d, i);
        }
      }
    }
  }

  /** With every candidate usable and aliasing allowed, the search never backtracks: it answers
      after one call per entry. */
  lemma {:induction false} AliasingNeedsNoBacktracking(p: Problem, prefix: seq<Name>)
    requires p.alias && EveryEntryHasACandidate(p.sets) && Names(p.sets) <= p.usable
    requires |prefix| <= |p.sets|
    ensures Explore(p, prefix).found.Some?
    ensures Explore(p, prefix).cost == |p.sets| - |prefix| + 1
    decreases |p.sets| - |prefix|, 1, 0
  {
    if |prefix| < |p.sets| {
      AliasingNeedsNoBacktrackingFrom(p, prefix, 0);
    }
  }

  lemma {:induction false} AliasingNeedsNoBacktrackingFrom(p: Problem, prefix: seq<Name>, k: nat)
    requires p.alias && EveryEntryHasACandidate(p.sets) && Names(p.sets) <= p.usable
    requires |prefix| < |p.sets| && k <= |p.sets[|prefix|]|
    requires forall j :: 0 <= j < k ==> p.sets[|prefix|][j] in prefix
    ensures Try(p, prefix, k).found.Some?
    ensures Try(p, prefix, k).cost == |p.sets| - |prefix|
    decreases |p.sets| - |prefix|, 0, |p.sets[|prefix|]| - k
  {
    var candidates := p.sets[|prefix|];
    if k == |candidates| {
      AliasingNeedsNoBacktracking(p, prefix + [candidates[0]]);
    } else if candidates[k] in prefix {
      AliasingNeedsNoBacktrackingFrom(p, prefix, k + 1);
    } else {
      assert candidates[k] in Names(p.sets);
      AliasingNeedsNoBacktracking(p, prefix + [candidates[k]]);
    }
  }

  /** The most calls a search for entries i and on can take: one, and one such search for each
      candidate of entry i. */
  function Nodes(sets: Entries, i: nat): (n: nat)
    requires i <= |sets|
    ensures n > 0
    decreases |sets| - i
  {
    if i == |sets| then 1
    else if sets[i] == [] then 1
    else 1 + Times(|sets[i]|, Nodes(sets, i + 1))
  }

  /** k searches of n calls each. */
  function Times(k: nat, n: nat): (r: nat)
    ensures k > 0 ==> r >= n
  {
    if k == 0 then 0 else n + Times(k - 1, n)
  }

  lemma {:induction false} CostBounded(p: Problem, prefix: seq<Name>)
    requires Searchable(p) && |prefix| <= |p.sets|
    ensures Explore(p, prefix).cost <= Nodes(p.sets, |prefix|)
    decreases |p.sets| - |prefix|, 1, 0
  {
    if |prefix| < |p.sets| {
      TryCostBounded(p, prefix, 0);
    }
  }

  lemma {:induction false} TryCostBounded(p: Problem, prefix: seq<Name>, k: nat)
    requires Searchable(p) && |prefix| < |p.sets| && k <= |p.sets[|prefix|]|
    ensures var candidates, n := p.sets[|prefix|], Nodes(p.sets, |prefix| + 1);
            if forall m | m in candidates :: m in prefix
            then Try(p, prefix, k).cost <= n && (candidates == [] ==> Try(p, prefix, k).cost == 0)
            else Try(p, prefix, k).cost <= Times(|candidates| - k, n)
    decreases |p.sets| - |prefix|, 0, |p.sets[|prefix|]| - k
  {
    var candidates := p.sets[|prefix|];
    if k == |candidates| {
      if p.alias && forall m | m in candidates :: m in prefix {
        CostBounded(p, prefix + [candidates[0]]);
      }
    } else {
      TryCostBounded(p, prefix, k + 1);
      if candidates[k] !in prefix && candidates[k] in p.usable {
        CostBounded(p, prefix + [candidates[k]]);
      }
    }
  }

  /** With one candidate for each entry there is nothing to search. */
  lemma {:induction false} OneCandidateEach(sets: Entries, i: nat)
    requires i <= |sets| && forall j :: i <= j < |sets| ==> |sets[j]| == 1
    ensures Nodes(sets, i) == |sets| - i + 1
    decreases |sets| - i
  {
    if i < |sets| {
      OneCandidateEach(sets, i + 1);
      assert Times(1, Nodes(sets, i + 1)) == Nodes(sets, i + 1) + Times(0, Nodes(sets, i + 1));
    }
  }

  // ---------------------------------------------------------------------------------------
  // assignDistinct
  // ---------------------------------------------------------------------------------------

  /** What one pass answers; an abandoned pass has no assignment. */
  datatype Pass = Pass(assignment: Option<seq<Name>>, abandoned: bool)

  /** The answer of a pass as a function of the complete search: the counting shortcut, then the
      search if it fits the budget. */
  function PassOf(p: Problem): Pass
    requires p.alias ==> forall i :: 0 <= i < |p.sets| ==> p.sets[i] != []
  {
    if !p.alias && |p.sets| > |Names(p.sets) * p.usable| then Pass(None, false)
    else
      var s := Explore(p, []);
      if s.cost <= MAX_SEARCH_NODES then Pass(s.found, false) else Pass(None, true)
  }

  /** A pass is exact. A result is an assignment, the first in candidate order; no result and not
      abandoned means that there is none, whether the shortcut or the search said so. */
  lemma PassExact(p: Problem)
    requires Searchable(p)
    ensures var r := PassOf(p);
            && (r.assignment.Some? ==> Assignment(p, r.assignment.value) && !r.abandoned)
            && (r.assignment.Some? ==> forall d :: Assignment(p, d) ==> NoLater(p.sets, r.assignment.value, d))
            && (r.assignment.None? && !r.abandoned ==> forall d :: !Assignment(p, d))
  {
    ExploreSound(p, []);
    forall d | Assignment(p, d)
      ensures Explore(p, []).found.Some? && NoLater(p.sets, Explore(p, []).found.value, d)
      ensures !p.alias ==> |p.sets| <= |Names(p.sets) * p.usable|
    {
      ExploreFindsFirst(p, [], d);
      if !p.alias {
        AssignmentIsDistinct(p, d);
        Pigeonhole(p.sets, p.usable, d);
      }
    }
  }

  /** The closure `rec` of assignDistinct with the variables it updates. */
  class Searcher {
    const p: Problem
    var chosen: seq<Name>
    var taken: set<Name>
    var nodes: nat
    var abandoned: bool

    constructor (p: Problem)
      ensures this.p == p && |chosen| == |p.sets| && taken == {} && nodes == 0 && !abandoned
    {
      this.p := p;
      chosen := seq(|p.sets|, _ => "");
      taken, nodes, abandoned := {}, 0, false;
    }

    ghost predicate At(i: nat)
      reads this
    {
      && i <= |p.sets| == |chosen|
      && taken == (set n | n in chosen[..i])
      && nodes <= MAX_SEARCH_NODES && !abandoned
      && Searchable(p)
    }

    /** How a call that starts at `before` calls ends, when the complete search would answer s:
        within the budget it ends as that search does, at its cost; beyond it, it stops at call
        MAX_SEARCH_NODES + 1 and abandons. */
    ghost predicate Ended(before: nat, s: Searched, ok: bool)
      reads this
    {
      if before + s.cost <= MAX_SEARCH_NODES then
        && !abandoned && nodes == before + s.cost
        && ok == s.found.Some?
        && (ok ==> chosen == s.found.value)
      else
        abandoned && !ok && nodes == MAX_SEARCH_NODES + 1
    }

    /** `nodes` counts the calls. */
    method Rec(i: nat) returns (ok: bool)
      requires At(i)
      modifies this
      ensures |chosen| == |p.sets| && chosen[..i] == old(chosen[..i])
      ensures Ended(old(nodes), Explore(p, old(chosen[..i])), ok)
      ensures !ok && !abandoned ==> taken == old(taken)
      decreases |p.sets| - i, 1
    {
      ghost var prefix := chosen[..i];
      nodes := nodes + 1;
      if nodes > MAX_SEARCH_NODES {
        abandoned := true;
      }
      if abandoned {
        return false;
      }
      if i == |p.sets| {
        return true;
      }
      var anyUnchosen := false;
      var k := 0;
      while k < |p.sets[i]|
        invariant 0 <= k <= |p.sets[i]|
        invariant At(i) && chosen[..i] == prefix && taken == old(taken)
        invariant anyUnchosen <==> exists j :: 0 <= j < k && p.sets[i][j] !in prefix
        invariant old(nodes) < nodes
        invariant Explore(p, prefix) == Searched(Try(p, prefix, k).found, nodes - old(nodes) + Try(p, prefix, k).cost)
      {
        var n := p.sets[i][k];
        k := k + 1;
        if n in taken {
          continue;
        }
        anyUnchosen := true;
        if n !in p.usable {
          continue;
        }
        taken := taken + {n};
        ok := Descend(i, n, prefix);
        if ok {
          return true;
        }
        if abandoned {
          return false;
        }
        taken := taken - {n};
      }
      if !anyUnchosen && p.alias {
        ok := Descend(i, p.sets[i][0], prefix);
        return ok;
      }
      return false;
    }

    /** Entry i gets n, and the search goes on with the next entry. */
    method Descend(i: nat, n: Name, ghost prefix: seq<Name>) returns (ok: bool)
      requires i < |p.sets| == |chosen| && chosen[..i] == prefix
      requires taken == (set m | m in prefix) + {n}
      requires nodes <= MAX_SEARCH_NODES && !abandoned && Searchable(p)
      modifies this
      ensures |chosen| == |p.sets| && chosen[..i] == prefix
      ensures Ended(old(nodes), Explore(p, prefix + [n]), ok)
      ensures !ok && !abandoned ==> taken == old(taken)
      decreases |p.sets| - i, 0
    {
      chosen := chosen[i := n];
      assert chosen[..i + 1] == prefix + [n];
      ok := Rec(i + 1);
      assert chosen[..i] == chosen[..i + 1][..i];
    }
  }

  /** The counting loop of assignDistinct: how many of the listed names are usable. */
  method CountUsable(sets: Entries, usable: set<Name>) returns (count: nat)
    ensures count == |Names(sets) * usable|
  {
    var judged: set<Name> := {};
    count := 0;
    assert Names(sets[..0]) == {};
    for i := 0 to |sets|
      invariant judged == Names(sets[..i])
      invariant count == |judged * usable|
    {
      NamesPrefix(sets, i);
      judged, count := JudgeEntry(sets[i], usable, judged, count);
    }
    assert sets[..|sets|] == sets;
  }

  /** One entry of that loop: a name is counted the first time it is seen. */
  method JudgeEntry(candidates: seq<Name>, usable: set<Name>, before: set<Name>, countBefore: nat)
    returns (judged: set<Name>, count: nat)
    requires countBefore == |before * usable|
    ensures judged == before + ToSet(candidates)
    ensures count == |judged * usable|
  {
    judged, count := before, countBefore;
    for k := 0 to |candidates|
      invariant judged == before + ToSet(candidates[..k])
      invariant count == |judged * usable|
    {
      var n := candidates[k];
      ToSetPrefix(candidates, k);
      if n !in judged {
        CountOneMore(judged, usable, n);
        judged := judged + {n};
        if n in usable {
          count := count + 1;
        }
      }
    }
    assert candidates[..|candidates|] == candidates;
  }

  function ToSet(s: seq<Name>): set<Name> {
    set n | n in s
  }

  lemma ToSetPrefix(s: seq<Name>, k: nat)
    requires k < |s|
    ensures ToSet(s[..k + 1]) == ToSet(s[..k]) + {s[k]}
  {
  }

  lemma CountOneMore(judged: set<Name>, usable: set<Name>, n: Name)
    requires n !in judged
    ensures |(judged + {n}) * usable| == |judged * usable| + if n in usable then 1 else 0
  {
    assert (judged + {n}) * usable == judged * usable + if n in usable then {n} else {};
  }

  lemma NamesPrefix(sets: Entries, i: nat)
    requires i < |sets|
    ensures Names(sets[..i + 1]) == Names(sets[..i]) + ToSet(sets[i])
  {
  }

  /** assignDistinct: at most MAX_SEARCH_NODES + 1 calls of the search, and the answer of PassOf. */
  method AssignDistinct(p: Problem) returns (r: Pass, calls: nat)
    requires Searchable(p)
    ensures r == PassOf(p)
    ensures calls <= MAX_SEARCH_NODES + 1
    ensures r.abandoned ==> calls == MAX_SEARCH_NODES + 1
  {
    if !p.alias {
      var usableCount := CountUsable(p.sets, p.usable);
      if |p.sets| > usableCount {
        return Pass(None, false), 0;
      }
    }
    var s := new Searcher(p);
    assert s.chosen[..0] == [];
    var ok := s.Rec(0);
    calls := s.nodes;
    r := if ok then Pass(Some(s.chosen), false) else Pass(None, s.abandoned);
  }

  // ---------------------------------------------------------------------------------------
  // ChooseVolumes and ChooseVolumesAvoiding
  // ---------------------------------------------------------------------------------------

  ghost predicate NoneDistinct(sets: Entries, usable: set<Name>) {
    forall d :: !Distinct(sets, usable, d)
  }

  /** What a run may be given: distinct free volumes or, only where no choice of distinct declared
      candidates exists at all, free or not, a choice that reuses a volume for an entry whose every
      candidate is already chosen. */
  ghost predicate Admissible(declared: Entries, free: set<Name>, c: seq<Name>) {
    || Distinct(declared, free, c)
    || (NoneDistinct(declared, Names(declared)) && Assignment(Problem(declared, free, true), c))
  }

  ghost predicate NoneAdmissible(declared: Entries, free: set<Name>) {
    forall c :: !Admissible(declared, free, c)
  }

  /** ChooseVolumes as a function of its passes. */
  function Choice(declared: Entries, free: set<Name>): Pass
    requires forall i :: 0 <= i < |declared| ==> declared[i] != []
  {
    var aliased := PassOf(Problem(declared, free, true));
    if |declared| > |Names(declared)| then aliased
    else
      var now := PassOf(Problem(declared, free, false));
      var ever := PassOf(Problem(declared, Names(declared), false));
      if now.assignment.Some? then now
      else if ever.assignment.Some? then Pass(None, now.abandoned)
      else if ever.abandoned then Pass(None, true)
      else aliased
  }

  method ChooseVolumes(declared: Entries, free: set<Name>) returns (r: Pass)
    requires EveryEntryHasACandidate(declared)
    ensures r == Choice(declared, free)
  {
    var names := CountUsable(declared, Names(declared));
    assert Names(declared) * Names(declared) == Names(declared);
    var calls;
    if |declared| > names {
      r, calls := AssignDistinct(Problem(declared, free, true));
      return;
    }
    var now, ever;
    now, calls := AssignDistinct(Problem(declared, free, false));
    if now.assignment.Some? {
      return Pass(now.assignment, false);
    }
    ever, calls := AssignDistinct(Problem(declared, Names(declared), false));
    if ever.assignment.Some? {
      return Pass(None, now.abandoned);
    }
    if ever.abandoned {
      return Pass(None, true);
    }
    r, calls := AssignDistinct(Problem(declared, free, true));
  }

  /** ChooseVolumes is exact: what it gives is admissible, and when it says wait without having
      abandoned a pass, nothing admissible is free. */
  lemma ChoiceExact(declared: Entries, free: set<Name>)
    requires EveryEntryHasACandidate(declared)
    ensures var r := Choice(declared, free);
            && (r.assignment.Some? ==> Admissible(declared, free, r.assignment.value) && !r.abandoned)
            && (r.assignment.None? && !r.abandoned ==> NoneAdmissible(declared, free))
  {
    var names := Names(declared);
    var now, ever := Problem(declared, free, false), Problem(declared, names, false);
    PassExact(Problem(declared, free, true));
    PassExact(now);
    PassExact(ever);
    assert names * names == names;
    forall d
      ensures Assignment(now, d) <==> Distinct(declared, free, d)
      ensures Assignment(ever, d) <==> Distinct(declared, names, d)
      ensures Distinct(declared, free, d) ==> Distinct(declared, names, d)
      ensures Distinct(declared, names, d) ==> |declared| <= |names|
    {
      AssignmentIsDistinct(now, d);
      AssignmentIsDistinct(ever, d);
      DistinctUsesDeclaredNames(declared, free, d);
      if Distinct(declared, names, d) {
        Pigeonhole(declared, names, d);
      }
    }
  }

  lemma DistinctUsesDeclaredNames(declared: Entries, free: set<Name>, d: seq<Name>)
    ensures Distinct(declared, free, d) ==> Distinct(declared, Names(declared), d)
  {
  }

  /** Two entries get the same volume only when no choice of distinct declared candidates exists,
      and then only the later of them has no candidate of its own left. */
  lemma AliasOnlyWhenUnavoidable(declared: Entries, free: set<Name>, i: nat, j: nat)
    requires EveryEntryHasACandidate(declared) && Choice(declared, free).assignment.Some?
    requires i < j < |declared|
    ensures var c := Choice(declared, free).assignment.value;
            |c| == |declared| && (c[i] == c[j] ==>
              && NoneDistinct(declared, Names(declared))
              && (forall n :: n in declared[j] ==> n in c[..j]))
  {
    ChoiceExact(declared, free);
    var c := Choice(declared, free).assignment.value;
    if c[i] == c[j] {
      assert Assignment(Problem(declared, free, true), c);
      assert c[..j][i] == c[j];
      assert Fits(declared[j], free, true, c[..j], c[j]);
    }
  }

  /** The search without a budget for distinct or aliased volumes takes more calls than the source
      allows. */
  ghost predicate Costly(declared: Entries, usable: set<Name>, alias: bool)
    requires EveryEntryHasACandidate(declared)
  {
    Explore(Problem(declared, usable, alias), []).cost > 20_000
  }

  /** A wait is marked abandoned only if one of the searches it rests on is costly: with more entries
      than names only the aliasing one. */
  lemma AbandonedMeansCostly(declared: Entries, free: set<Name>)
    requires EveryEntryHasACandidate(declared) && Choice(declared, free).abandoned
    ensures || Costly(declared, free, true)
            || (|declared| <= |Names(declared)| && (Costly(declared, free, false) || Costly(declared, Names(declared), false)))
    ensures Nodes(declared, 0) > 20_000
  {
    CostBounded(Problem(declared, free, true), []);
    CostBounded(Problem(declared, free, false), []);
    CostBounded(Problem(declared, Names(declared), false), []);
  }

  /** A job with few candidates is decided: it gets volumes if and only if something admissible is
      free, and nothing is ever abandoned. */
  lemma SmallJobIsDecided(declared: Entries, free: set<Name>)
    requires EveryEntryHasACandidate(declared) && Nodes(declared, 0) <= 20_000
    ensures !Choice(declared, free).abandoned
    ensures Choice(declared, free).assignment.Some? <==> exists c :: Admissible(declared, free, c)
  {
    ChoiceExact(declared, free);
    if Choice(declared, free).abandoned {
      AbandonedMeansCostly(declared, free);
    }
  }

  /** For a run whose every declared candidate is free something is always admissible, and it is told
      to wait only by a search that was costly; a small job is granted. */
  lemma AllFreeNeverWaits(declared: Entries, free: set<Name>)
    requires EveryEntryHasACandidate(declared) && Names(declared) <= free
    ensures exists c :: Admissible(declared, free, c)
    ensures Choice(declared, free).assignment.None? ==>
              || |declared| >= 20_000
              || (|declared| <= |Names(declared)| && (Costly(declared, free, false) || Costly(declared, Names(declared), false)))
    ensures Nodes(declared, 0) <= 20_000 ==> Choice(declared, free).assignment.Some?
  {
    var p := Problem(declared, free, true);
    AliasingNeedsNoBacktracking(p, []);
    ExploreSound(p, []);
    var aliased := Explore(p, []).found.value;
    if d :| Distinct(declared, Names(declared), d) {
      assert Distinct(declared, free, d);
      assert Admissible(declared, free, d);
    } else {
      assert Admissible(declared, free, aliased);
    }
    ChoiceExact(declared, free);
    if Choice(declared, free).abandoned {
      AbandonedMeansCostly(declared, free);
    }
  }

  /** What is admissible stays admissible when more volumes are free, so a request for which
      nothing is admissible cannot become admissible by taking volumes away. */
  lemma AdmissibleMonotone(declared: Entries, fewer: set<Name>, more: set<Name>, c: seq<Name>)
    requires fewer <= more && Admissible(declared, fewer, c)
    ensures Admissible(declared, more, c)
  {
  }

  lemma NoneAdmissibleMonotone(declared: Entries, fewer: set<Name>, more: set<Name>)
    requires fewer <= more && NoneAdmissible(declared, more)
    ensures NoneAdmissible(declared, fewer)
  {
    forall c | Admissible(declared, fewer, c)
      ensures false
    {
      AdmissibleMonotone(declared, fewer, more, c);
    }
  }

  /** ChooseVolumesAvoiding as a function of ChooseVolumes. */
  function AvoidingChoice(declared: Entries, free: set<Name>, avoid: set<Name>): Pass
    requires forall i :: 0 <= i < |declared| ==> declared[i] != []
  {
    if Names(declared) !! avoid then Choice(declared, free)
    else
      var healthy := Choice(declared, free - avoid);
      if healthy.assignment.Some? then healthy else Choice(declared, free)
  }

  method ChooseVolumesAvoiding(declared: Entries, free: set<Name>, avoid: set<Name>) returns (r: Pass)
    requires EveryEntryHasACandidate(declared)
    ensures r == AvoidingChoice(declared, free, avoid)
  {
    var anyAvoided := false;
    for i := 0 to |declared|
      invariant anyAvoided <==> !(Names(declared[..i]) !! avoid)
    {
      NamesPrefix(declared, i);
      for k := 0 to |declared[i]|
        invariant anyAvoided <==> !(Names(declared[..i]) + ToSet(declared[i][..k]) !! avoid)
      {
        ToSetPrefix(declared[i], k);
        if declared[i][k] in avoid {
          anyAvoided := true;
        }
      }
      assert declared[i][..|declared[i]|] == declared[i];
    }
    assert declared[..|declared|] == declared;
    if !anyAvoided {
      r := ChooseVolumes(declared, free);
      return;
    }
    r := ChooseVolumes(declared, free - avoid);
    if r.assignment.Some? {
      return Pass(r.assignment, false);
    }
    r := ChooseVolumes(declared, free);
  }

  /** Steering away from gated volumes keeps the rules of ChooseVolumes: the result is admissible
      over what is free, and a run waits only where ChooseVolumes would make it wait. */
  lemma AvoidingExact(declared: Entries, free: set<Name>, avoid: set<Name>)
    requires EveryEntryHasACandidate(declared)
    ensures var r := AvoidingChoice(declared, free, avoid);
            && (r.assignment.Some? ==> Admissible(declared, free, r.assignment.value) && !r.abandoned)
            && (Choice(declared, free).assignment.Some? ==> r.assignment.Some?)
            && (r.assignment.None? && !r.abandoned ==> NoneAdmissible(declared, free))
            && (r.abandoned ==> Nodes(declared, 0) > 20_000)
  {
    ChoiceExact(declared, free);
    ChoiceExact(declared, free - avoid);
    var healthy := Choice(declared, free - avoid);
    if healthy.assignment.Some? {
      AdmissibleMonotone(declared, free - avoid, free, healthy.assignment.value);
    }
    if AvoidingChoice(declared, free, avoid).abandoned {
      AbandonedMeansCostly(declared, free);
    }
  }

  /** A gated volume is given only after the pass without gated volumes found nothing: either
      nothing admissible is healthy, or the job is too large for that pass to be decided. */
  lemma AvoidedOnlyAsLastResort(declared: Entries, free: set<Name>, avoid: set<Name>, i: nat)
    requires EveryEntryHasACandidate(declared) && i < |declared|
    requires AvoidingChoice(declared, free, avoid).assignment.Some?
    ensures var c := AvoidingChoice(declared, free, avoid).assignment.value;
            && |c| == |declared|
            && (c[i] in avoid ==>
                  && Choice(declared, free - avoid).assignment.None?
                  && (NoneAdmissible(declared, free - avoid) || Nodes(declared, 0) > 20_000))
  {
    if Choice(declared, free - avoid).abandoned {
      AbandonedMeansCostly(declared, free - avoid);
    }
    var c := AvoidingChoice(declared, free, avoid).assignment.value;
    ChoiceExact(declared, free);
    ChoiceExact(declared, free - avoid);
    if Choice(declared, free - avoid).assignment.Some? && !(Names(declared) !! avoid) {
      AdmissibleUsesFree(declared, free - avoid, c);
    } else {
      AdmissibleUsesFree(declared, free, c);
      assert c[i] in Names(declared);
    }
  }

  /** Every volume a run is given is one of its own candidates, and it is free. */
  lemma AdmissibleUsesFree(declared: Entries, free: set<Name>, c: seq<Name>)
    requires Admissible(declared, free, c)
    ensures |c| == |declared|
    ensures forall i :: 0 <= i < |c| ==> c[i] in declared[i] && c[i] in free
  {
    if Assignment(Problem(declared, free, true), c) {
      forall i | 0 <= i < |c|
        ensures c[i] in declared[i] && c[i] in free
      {
        AssignmentUsesUsableCandidates(Problem(declared, free, true), c, i);
      }
    }
  }
}
