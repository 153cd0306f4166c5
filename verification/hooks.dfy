/** Hook registration and draining of internal/agent/orchestrator.go. Registrations happen under one
    mutex, so a phase is some sequence of them.

    A drain reads its deadline before each item, after each item and at the end. Its readings are
    numbered: 2 * i before item i, 2 * i + 1 after it, 2 * n at the end of n items. The deadline is
    the first reading that finds it passed, and every later one does too.
  */
module Hooks {
  import opened Common

  /** A cache save or a post: hook, by what its label says of its step. */
  datatype Item = Save(name: string) | Post(name: string)

  function Label(item: Item): (r: string)
    ensures r != ""
  {
    match item
    case Save(name) => "the cache: save for " + name
    case Post(name) => "the post: hook of " + name
  }

  /** A label tells which item it is. */
  lemma LabelsDiffer(x: Item, y: Item)
    requires Label(x) == Label(y)
    ensures x == y
  {
    var saves, posts := "the cache: save for ", "the post: hook of ";
    assert saves[4] == 'c' && posts[4] == 'p';
    assert Label(x)[4] == Label(y)[4];
    assert x.Save? == y.Save?;
    var n := if x.Save? then |saves| else |posts|;
    assert x.name == Label(x)[n..] && y.name == Label(y)[n..];
  }

  function Saves(items: seq<Item>): seq<Item> {
    if items == [] then [] else Saves(items[..|items| - 1]) + if items[|items| - 1].Save? then [items[|items| - 1]] else []
  }

  function Posts(items: seq<Item>): seq<Item> {
    if items == [] then [] else Posts(items[..|items| - 1]) + if items[|items| - 1].Post? then [items[|items| - 1]] else []
  }

  function Reverse(items: seq<Item>): (r: seq<Item>)
    ensures |r| == |items| && forall i :: 0 <= i < |items| ==> r[i] == items[|items| - 1 - i]
  {
    if items == [] then [] else [items[|items| - 1]] + Reverse(items[..|items| - 1])
  }

  /** The order of one drain: saves as registered, then post hooks last registered first. */
  function DrainOrder(registered: seq<Item>): seq<Item> {
    Saves(registered) + Reverse(Posts(registered))
  }

  /** A drain loses nothing and repeats nothing. */
  lemma {:induction false} DrainOrderIsPermutation(items: seq<Item>)
    ensures multiset(DrainOrder(items)) == multiset(items)
  {
    SplitByKind(items);
    ReverseIsPermutation(Posts(items));
  }

  /** Where a newly registered item goes: behind every save and before every post hook registered so
      far, whichever of the two it is. So saves run first and in order, post hooks after them and last
      registered first. */
  lemma NewItemGoesBetween(items: seq<Item>, x: Item)
    ensures exists k :: 0 <= k <= |DrainOrder(items)| && SavesThenPosts(DrainOrder(items), k)
                        && DrainOrder(items + [x]) == DrainOrder(items)[..k] + [x] + DrainOrder(items)[k..]
  {
    var saves, posts := Saves(items), Reverse(Posts(items));
    SavesAndPosts(items);
    OneMoreItem(items, x);
    assert DrainOrder(items)[..|saves|] == saves && DrainOrder(items)[|saves|..] == posts;
    assert SavesThenPosts(DrainOrder(items), |saves|);
  }

  lemma OneMoreItem(items: seq<Item>, x: Item)
    ensures DrainOrder(items + [x]) == Saves(items) + [x] + Reverse(Posts(items))
  {
    assert (items + [x])[..|items|] == items;
    if x.Save? {
      assert Saves(items + [x]) == Saves(items) + [x] && Posts(items + [x]) == Posts(items);
    } else {
      assert Saves(items + [x]) == Saves(items) && Posts(items + [x]) == Posts(items) + [x];
      ReverseOneMore(Posts(items), x);
    }
  }

  lemma ReverseOneMore(items: seq<Item>, x: Item)
    ensures Reverse(items + [x]) == [x] + Reverse(items)
  {
    assert (items + [x])[..|items|] == items;
  }

  ghost predicate SavesThenPosts(items: seq<Item>, k: nat) {
    && k <= |items|
    && (forall i :: 0 <= i < k ==> items[i].Save?)
    && (forall i :: k <= i < |items| ==> items[i].Post?)
  }

  lemma {:induction false} SavesAndPosts(items: seq<Item>)
    ensures forall i :: 0 <= i < |Saves(items)| ==> Saves(items)[i].Save?
    ensures forall i :: 0 <= i < |Posts(items)| ==> Posts(items)[i].Post?
  {
    if items != [] {
      SavesAndPosts(items[..|items| - 1]);
    }
  }

  lemma {:induction false} SplitByKind(items: seq<Item>)
    ensures multiset(Saves(items)) + multiset(Posts(items)) == multiset(items)
  {
    if items != [] {
      SplitByKind(items[..|items| - 1]);
      assert items == items[..|items| - 1] + [items[|items| - 1]];
    }
  }

  lemma {:induction false} ReverseIsPermutation(items: seq<Item>)
    ensures multiset(Reverse(items)) == multiset(items)
  {
    if items != [] {
      ReverseIsPermutation(items[..|items| - 1]);
      assert items == items[..|items| - 1] + [items[|items| - 1]];
    }
  }

  /** What one drain did: the items it ran and those it never started, in order, and the item the
      deadline landed in, if any. */
  datatype Drained = Drained(executed: seq<Item>, skipped: seq<Item>, interrupted: Option<Item>)

  /** How many of n items start before the deadline. */
  function Started(n: nat, deadline: nat): (k: nat)
    ensures k <= n
  {
    if (deadline + 1) / 2 < n then (deadline + 1) / 2 else n
  }

  lemma StartedBefore(n: nat, deadline: nat, i: nat)
    requires i < n
    ensures i < Started(n, deadline) <==> 2 * i < deadline
  {
  }

  /** Executed then skipped items are the drain's items in order; an item was executed exactly if the
      deadline had not passed before it; and the one during which it passed is the interrupted one. */
  ghost predicate Accounts(d: Drained, items: seq<Item>, deadline: nat) {
    var k := Started(|items|, deadline);
    && d.executed == items[..k] && d.skipped == items[k..]
    && d.interrupted == if deadline % 2 == 1 && deadline / 2 < |items| then Some(items[deadline / 2]) else None
  }

  /** Only the last executed item can be the interrupted one. */
  lemma InterruptedIsLast(d: Drained, items: seq<Item>, deadline: nat)
    requires Accounts(d, items, deadline) && d.interrupted.Some?
    ensures d.executed != [] && d.interrupted.value == d.executed[|d.executed| - 1]
  {
    assert Started(|items|, deadline) == deadline / 2 + 1;
  }

  // ---------------------------------------------------------------------------------------
  // The truncation text
  // ---------------------------------------------------------------------------------------

  function Decimal(n: nat): string {
    if n < 10 then [(n + 48) as char] else Decimal(n / 10) + [(n % 10 + 48) as char]
  }

  function Joined(names: seq<string>): string {
    if names == [] then ""
    else if |names| == 1 then names[0]
    else Joined(names[..|names| - 1]) + ", " + names[|names| - 1]
  }

  function More(n: nat): string {
    " (+" + Decimal(n) + " more)"
  }

  function NeverStarted(skipped: seq<string>): string {
    var named := if |skipped| > 5 then skipped[..5] else skipped;
    var extra := if |skipped| > 5 then More(|skipped| - 5) else "";
    "Never started: " + Joined(named) + extra + "."
  }

  function Interrupted(item: string): string {
    "Interrupted: " + item + "."
  }

  /** truncationAttribution; interrupted is "" when no item was. */
  function Attribution(interrupted: string, skipped: seq<string>): string {
    if interrupted == "" && skipped == [] then ""
    else if skipped == [] then Interrupted(interrupted)
    else if interrupted == "" then NeverStarted(skipped)
    else Interrupted(interrupted) + " " + NeverStarted(skipped)
  }

  ghost predicate MentionsAt(text: string, part: string, i: nat) {
    i + |part| <= |text| && text[i..i + |part|] == part
  }

  ghost predicate Mentions(text: string, part: string) {
    exists i: nat :: MentionsAt(text, part, i)
  }

  lemma MentionsMiddle(a: string, part: string, b: string)
    ensures Mentions(a + part + b, part)
  {
    assert MentionsAt(a + part + b, part, |a|);
  }

  lemma MentionsWithin(a: string, text: string, b: string, part: string)
    requires Mentions(text, part)
    ensures Mentions(a + text + b, part)
  {
    var i: nat :| MentionsAt(text, part, i);
    assert (a + text + b)[|a| + i..|a| + i + |part|] == text[i..i + |part|];
    assert MentionsAt(a + text + b, part, |a| + i);
  }

  lemma {:induction false} JoinedMentions(names: seq<string>, k: nat)
    requires k < |names|
    ensures Mentions(Joined(names), names[k])
  {
    var last := |names| - 1;
    if |names| == 1 {
      assert MentionsAt(names[0], names[0], 0);
    } else if k == last {
      MentionsMiddle(Joined(names[..last]) + ", ", names[last], "");
      assert Joined(names[..last]) + ", " + names[last] + "" == Joined(names);
    } else {
      JoinedMentions(names[..last], k);
      MentionsWithin("", Joined(names[..last]), ", " + names[last], names[k]);
      assert "" + Joined(names[..last]) + (", " + names[last]) == Joined(names);
    }
  }

  /** How the text accounts for skipped item k: by name, or in the number of further ones. */
  function Account(skipped: seq<string>, k: nat): string
    requires k < |skipped|
  {
    if k < 5 then skipped[k] else More(|skipped| - 5)
  }

  lemma NeverStartedMentions(skipped: seq<string>, k: nat)
    requires k < |skipped|
    ensures Mentions(NeverStarted(skipped), Account(skipped, k))
  {
    if k < 5 {
      NamedOnes(skipped, k);
    } else {
      OtherOnes(skipped);
    }
  }

  lemma NamedOnes(skipped: seq<string>, k: nat)
    requires k < |skipped| && k < 5
    ensures Mentions(NeverStarted(skipped), skipped[k])
  {
    var named := if |skipped| > 5 then skipped[..5] else skipped;
    var extra := if |skipped| > 5 then More(|skipped| - 5) else "";
    var head := "Never started: ";
    JoinedMentions(named, k);
    MentionsWithin(head, Joined(named), extra + ".", skipped[k]);
    assert head + Joined(named) + (extra + ".") == head + Joined(named) + extra + ".";
  }

  lemma OtherOnes(skipped: seq<string>)
    requires |skipped| > 5
    ensures Mentions(NeverStarted(skipped), More(|skipped| - 5))
  {
    MentionsMiddle("Never started: " + Joined(skipped[..5]), More(|skipped| - 5), ".");
  }

  /** Every skipped item is named, or counted in the number of further ones. */
  lemma SkippedAreAttributed(interrupted: string, skipped: seq<string>, k: nat)
    requires k < |skipped|
    ensures Mentions(Attribution(interrupted, skipped), Account(skipped, k))
  {
    NeverStartedMentions(skipped, k);
    if interrupted != "" {
      var lead, text := Interrupted(interrupted) + " ", NeverStarted(skipped);
      MentionsWithin(lead, text, "", Account(skipped, k));
      assert lead + text + "" == lead + text;
    }
  }

  /** The number a text of digits stands for. */
  function Value(digits: string): int {
    if digits == "" then 0 else 10 * Value(digits[..|digits| - 1]) + (digits[|digits| - 1] as int - 48)
  }

  lemma {:induction false} DecimalIsValue(n: nat)
    ensures Value(Decimal(n)) == n && forall i :: 0 <= i < |Decimal(n)| ==> '0' <= Decimal(n)[i] <= '9'
  {
    if n >= 10 {
      DecimalIsValue(n / 10);
      assert Decimal(n)[..|Decimal(n)| - 1] == Decimal(n / 10);
    } else {
      assert Decimal(n)[..0] == "";
    }
  }

  /** The interrupted item is always named, and there is no text exactly when there is nothing to
      attribute. */
  lemma InterruptedIsAttributed(interrupted: string, skipped: seq<string>)
    ensures interrupted != "" ==> Mentions(Attribution(interrupted, skipped), Interrupted(interrupted))
    ensures Attribution(interrupted, skipped) == "" <==> interrupted == "" && skipped == []
  {
    var first, rest := Interrupted(interrupted), " " + NeverStarted(skipped);
    if interrupted != "" && skipped == [] {
      assert MentionsAt(first, first, 0);
    } else if interrupted != "" {
      MentionsMiddle("", first, rest);
      assert "" + first + rest == first + " " + NeverStarted(skipped);
    }
  }

  function Labels(items: seq<Item>): seq<string> {
    seq(|items|, i requires 0 <= i < |items| => Label(items[i]))
  }

  function CutOff(d: Drained): string {
    if d.interrupted.Some? then Label(d.interrupted.value) else ""
  }

  /** The attribution of what a drain did not run to its end. */
  function Text(d: Drained): string {
    Attribution(CutOff(d), Labels(d.skipped))
  }

  /** recordPhaseTruncated's attribution, if the deadline has passed by the end of the drain. */
  function Record(d: Drained, deadline: nat): Option<string> {
    if 2 * (|d.executed| + |d.skipped|) < deadline then None else Some(Text(d))
  }

  ghost predicate TellsAll(text: string, d: Drained) {
    && (forall k: nat :: k < |d.skipped| ==> Mentions(text, Account(Labels(d.skipped), k)))
    && (d.interrupted.Some? ==> Mentions(text, Interrupted(Label(d.interrupted.value))))
    && (text == "" <==> d.skipped == [] && d.interrupted.None?)
  }

  /** The text names or counts every item that was skipped, and names the interrupted one. */
  lemma TextTellsAll(d: Drained)
    ensures TellsAll(Text(d), d)
  {
    InterruptedIsAttributed(CutOff(d), Labels(d.skipped));
    forall k: nat | k < |d.skipped|
      ensures Mentions(Text(d), Account(Labels(d.skipped), k))
    {
      SkippedAreAttributed(CutOff(d), Labels(d.skipped), k);
    }
  }

  /** A drain that did not run everything to its end is recorded, with all of that. */
  ghost predicate Told(d: Drained, record: Option<string>) {
    && (d.skipped != [] || d.interrupted.Some? ==> record.Some?)
    && (record.Some? ==> TellsAll(record.value, d))
  }

  lemma DrainIsTold(d: Drained, items: seq<Item>, deadline: nat)
    requires Accounts(d, items, deadline)
    ensures Told(d, Record(d, deadline))
  {
    TextTellsAll(d);
    assert |items| == |d.executed| + |d.skipped|;
  }

  // ---------------------------------------------------------------------------------------
  // Registering and draining
  // ---------------------------------------------------------------------------------------

  class Claim {
    var postHooks: seq<Item>
    var hookStack: seq<Item>

    /** Everything registered since the last drain, in the order of registration. */
    ghost var registered: seq<Item>

    constructor ()
      ensures Valid() && registered == []
    {
      postHooks, hookStack, registered := [], [], [];
    }

    ghost predicate Valid()
      reads this
    {
      postHooks == Saves(registered) && hookStack == Posts(registered)
    }

    /** A step registers a cache save or a post: hook, under the mutex. */
    method Register(item: Item)
      requires Valid()
      modifies this
      ensures Valid() && registered == old(registered) + [item]
    {
      registered := registered + [item];
      assert registered[..|registered| - 1] == old(registered);
      if item.Save? {
        postHooks := postHooks + [item];
      } else {
        hookStack := hookStack + [item];
      }
    }

    /** drainHooks: detaches both lists, runs them in order, and records what the deadline cut off. */
    method Drain(deadline: nat) returns (d: Drained, record: Option<string>)
      requires Valid()
      modifies this
      ensures Valid() && registered == []
      ensures Accounts(d, DrainOrder(old(registered)), deadline) && Told(d, record)
      ensures record.Some? <==> deadline <= 2 * |DrainOrder(old(registered))|
    {
      var saves, hooks := postHooks, hookStack;
      postHooks, hookStack := [], [];
      registered := [];
      d := RunHooks(saves, hooks, deadline);
      record := Record(d, deadline);
      DrainIsTold(d, saves + Reverse(hooks), deadline);
    }
  }

  /** runHook: skip what the deadline already passed for; run the rest, and note the one during
      which it passes. */
  method RunHook(item: Item, d: Drained, deadline: nat, ghost items: seq<Item>) returns (r: Drained)
    requires Accounts(d, items, deadline)
    ensures Accounts(r, items + [item], deadline)
  {
    var n := |d.executed| + |d.skipped|;
    ghost var more, k := items + [item], Started(|items| + 1, deadline);
    if deadline <= 2 * n {
      r := d.(skipped := d.skipped + [item]);
      assert r.executed == more[..k] && r.skipped == more[k..];
      return;
    }
    r := d.(executed := d.executed + [item],
            interrupted := if d.interrupted.None? && deadline <= 2 * n + 1 then Some(item) else d.interrupted);
    assert r.executed == more[..k] && r.skipped == more[k..];
  }

  /** The two loops of a drain. */
  method RunHooks(saves: seq<Item>, hooks: seq<Item>, deadline: nat) returns (d: Drained)
    ensures Accounts(d, saves + Reverse(hooks), deadline)
  {
    d := RunSaves(saves, deadline);
    d := RunPosts(d, hooks, deadline, saves, Reverse(hooks));
  }

  method RunSaves(saves: seq<Item>, deadline: nat) returns (d: Drained)
    ensures Accounts(d, saves, deadline)
  {
    d := Drained([], [], None);
    assert saves[..0] == [] && Started(0, deadline) == 0;
    for i := 0 to |saves|
      invariant Accounts(d, saves[..i], deadline)
    {
      assert saves[..i + 1] == saves[..i] + [saves[i]];
      d := RunHook(saves[i], d, deadline, saves[..i]);
    }
    assert saves[..|saves|] == saves;
  }

  method RunPosts(before: Drained, hooks: seq<Item>, deadline: nat, ghost done: seq<Item>, ghost order: seq<Item>) returns (d: Drained)
    requires Accounts(before, done, deadline)
    requires |order| == |hooks| && forall i :: 0 <= i < |hooks| ==> order[i] == hooks[|hooks| - 1 - i]
    ensures Accounts(d, done + order, deadline)
  {
    d := before;
    var n := |hooks|;
    ghost var k := 0;
    assert done + order[..0] == done;
    while n > 0
      invariant 0 <= n <= |hooks| && k == |hooks| - n
      invariant Accounts(d, done + order[..k], deadline)
    {
      n := n - 1;
      d := RunHook(hooks[n], d, deadline, done + order[..k]);
      OneMoreOf(done, order, k);
      k := k + 1;
    }
    assert order[..|hooks|] == order;
  }

  lemma OneMoreOf(done: seq<Item>, order: seq<Item>, k: nat)
    requires k < |order|
    ensures done + order[..k + 1] == done + order[..k] + [order[k]]
  {
  }

  /** RunClaim's two phases: what the main steps register is drained before finally starts; what
      finally registers is drained after it. Every registered item is handed to exactly one drain,
      within it is executed or skipped exactly once, and what a deadline cut off is told. */
  method RunPhases(mainItems: seq<Item>, finallyItems: Option<seq<Item>>, deadline: nat, finallyDeadline: nat)
    returns (first: Drained, record: Option<string>, second: Option<Drained>, finallyRecord: Option<string>)
    ensures Accounts(first, DrainOrder(mainItems), deadline) && Told(first, record)
    ensures second.Some? <==> finallyItems.Some?
    ensures second.Some? ==> Accounts(second.value, DrainOrder(finallyItems.value), finallyDeadline) && Told(second.value, finallyRecord)
    ensures multiset(first.executed) + multiset(first.skipped) == multiset(mainItems)
    ensures second.Some? ==> multiset(second.value.executed) + multiset(second.value.skipped) == multiset(finallyItems.value)
  {
    var claim := new Claim();
    RegisterAll(claim, mainItems);
    first, record := claim.Drain(deadline);
    HandedOver(first, mainItems, deadline);
    second, finallyRecord := None, None;
    if finallyItems.Some? {
      RegisterAll(claim, finallyItems.value);
      var d, told := claim.Drain(finallyDeadline);
      HandedOver(d, finallyItems.value, finallyDeadline);
      second, finallyRecord := Some(d), told;
    }
  }

  method RegisterAll(claim: Claim, items: seq<Item>)
    requires claim.Valid() && claim.registered == []
    modifies claim
    ensures claim.Valid() && claim.registered == items
  {
    for i := 0 to |items|
      invariant claim.Valid() && claim.registered == items[..i]
    {
      claim.Register(items[i]);
      assert items[..i + 1] == items[..i] + [items[i]];
    }
    assert items[..|items|] == items;
  }

  lemma HandedOver(d: Drained, items: seq<Item>, deadline: nat)
    requires Accounts(d, DrainOrder(items), deadline)
    ensures multiset(d.executed) + multiset(d.skipped) == multiset(items)
  {
    DrainOrderIsPermutation(items);
    CutIsPermutation(DrainOrder(items), Started(|DrainOrder(items)|, deadline));
  }

  lemma CutIsPermutation(items: seq<Item>, k: nat)
    requires k <= |items|
    ensures multiset(items[..k]) + multiset(items[k..]) == multiset(items)
  {
    assert items == items[..k] + items[k..];
  }
}
