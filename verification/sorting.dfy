/** sort.Strings and strings.Compare: byte order, a prefix first. */
module Sorting {

  predicate Less(a: string, b: string) {
    b != "" && (a == "" || a[0] < b[0] || (a[0] == b[0] && Less(a[1..], b[1..])))
  }

  /** a and b agree before i, and there a ends or has the smaller byte. */
  ghost predicate FirstDifference(a: string, b: string, i: nat) {
    i <= |a| && i < |b| && a[..i] == b[..i] && (i == |a| || a[i] < b[i])
  }

  lemma {:induction false} LessMeans(a: string, b: string)
    ensures Less(a, b) <==> exists i: nat :: FirstDifference(a, b, i)
    decreases |a|
  {
    if a != "" && b != "" && a[0] == b[0] {
      LessMeans(a[1..], b[1..]);
      if i: nat :| FirstDifference(a[1..], b[1..], i) {
        assert a[..i + 1] == [a[0]] + a[1..][..i] && b[..i + 1] == [b[0]] + b[1..][..i];
        assert FirstDifference(a, b, i + 1);
      }
      if i: nat :| FirstDifference(a, b, i) {
        LaterDifference(a, b, i);
      }
    } else if Less(a, b) {
      assert FirstDifference(a, b, 0);
    } else if i: nat :| FirstDifference(a, b, i) {
      AgreeAtStart(a, b, i);
    }
  }

  lemma AgreeAtStart(a: string, b: string, i: nat)
    requires FirstDifference(a, b, i)
    ensures i > 0 ==> a != "" && a[0] == b[0]
  {
    assert i > 0 ==> a[0] == a[..i][0] && b[0] == b[..i][0];
  }

  lemma LaterDifference(a: string, b: string, i: nat)
    requires a != "" && b != "" && a[0] == b[0] && FirstDifference(a, b, i)
    ensures i > 0 && FirstDifference(a[1..], b[1..], i - 1)
  {
    assert i > 0;
    assert a[1..][..i - 1] == a[..i][1..] && b[1..][..i - 1] == b[..i][1..];
  }

  /** Exactly one of the three holds. */
  lemma {:induction false} Trichotomy(a: string, b: string)
    ensures Less(a, b) ==> a != b && !Less(b, a)
    ensures Less(a, b) || Less(b, a) || a == b
    decreases |a|
  {
    if a != "" && b != "" {
      Trichotomy(a[1..], b[1..]);
      assert a == [a[0]] + a[1..] && b == [b[0]] + b[1..];
    }
  }

  lemma {:induction false} LessTransitive(a: string, b: string, c: string)
    requires Less(a, b) && Less(b, c)
    ensures Less(a, c)
    decreases |a|
  {
    if a != "" && a[0] == b[0] == c[0] {
      LessTransitive(a[1..], b[1..], c[1..]);
    }
  }

  ghost predicate SortedBy<T(!new)>(xs: seq<T>, key: T -> string) {
    forall i, j :: 0 <= i < j < |xs| ==> !Less(key(xs[j]), key(xs[i]))
  }

  ghost predicate Distinct<T(!new)>(xs: seq<T>) {
    forall i, j :: 0 <= i < j < |xs| ==> xs[i] != xs[j]
  }

  /** x goes behind whatever it is not less than. */
  method InsertBy<T(!new)>(xs: seq<T>, x: T, key: T -> string) returns (ys: seq<T>)
    requires SortedBy(xs, key) && Distinct(xs) && x !in xs
    ensures SortedBy(ys, key) && Distinct(ys) && forall y :: y in ys <==> y in xs || y == x
  {
    var k := |xs|;
    while k > 0 && Less(key(x), key(xs[k - 1]))
      invariant 0 <= k <= |xs|
      invariant forall i :: k <= i < |xs| ==> Less(key(x), key(xs[i]))
    {
      k := k - 1;
    }
    ys := xs[..k] + [x] + xs[k..];
    forall i | 0 <= i < k
      ensures !Less(key(x), key(xs[i]))
    {
      NotLessBelow(xs, key, i, k - 1, key(x));
    }
    forall i | k <= i < |xs|
      ensures !Less(key(xs[i]), key(x))
    {
      Trichotomy(key(x), key(xs[i]));
    }
    InsertedInOrder(xs, x, k, key);
  }

  lemma InsertedInOrder<T(!new)>(xs: seq<T>, x: T, k: nat, key: T -> string)
    requires SortedBy(xs, key) && Distinct(xs) && x !in xs && k <= |xs|
    requires forall i :: 0 <= i < k ==> !Less(key(x), key(xs[i]))
    requires forall i :: k <= i < |xs| ==> !Less(key(xs[i]), key(x))
    ensures var ys := xs[..k] + [x] + xs[k..];
            SortedBy(ys, key) && Distinct(ys) && forall y :: y in ys <==> y in xs || y == x
  {
    var ys := xs[..k] + [x] + xs[k..];
    assert xs == xs[..k] + xs[k..];
    forall i, j | 0 <= i < j < |ys|
      ensures !Less(key(ys[j]), key(ys[i])) && ys[i] != ys[j]
    {
      var a, b := if i <= k then i else i - 1, if j <= k then j else j - 1;
      assert i != k ==> ys[i] == xs[a];
      assert j != k ==> ys[j] == xs[b];
    }
  }

  lemma NotLessBelow<T(!new)>(xs: seq<T>, key: T -> string, i: nat, j: nat, text: string)
    requires SortedBy(xs, key) && i <= j < |xs| && !Less(text, key(xs[j]))
    ensures !Less(text, key(xs[i]))
  {
    if i < j && Less(text, key(xs[i])) {
      Trichotomy(key(xs[i]), key(xs[j]));
      if key(xs[i]) != key(xs[j]) {
        LessTransitive(text, key(xs[i]), key(xs[j]));
      }
    }
  }

  /** Sorting a list without repetitions by a text of its elements. */
  method SortBy<T(!new)>(xs: seq<T>, key: T -> string) returns (ys: seq<T>)
    requires Distinct(xs)
    ensures SortedBy(ys, key) && Distinct(ys) && forall y :: y in ys <==> y in xs
  {
    ys := [];
    for i := 0 to |xs|
      invariant SortedBy(ys, key) && Distinct(ys) && forall y :: y in ys <==> y in xs[..i]
    {
      assert xs[i] !in xs[..i];
      ys := InsertBy(ys, xs[i], key);
    }
    assert xs[..|xs|] == xs;
  }

  ghost predicate Ascending(xs: seq<string>) {
    forall i, j :: 0 <= i < j < |xs| ==> Less(xs[i], xs[j])
  }

  /** The sorted keys of a map: each once, in order. */
  method SortedElements(s: set<string>) returns (xs: seq<string>)
    ensures Ascending(xs) && forall n :: n in xs <==> n in s
  {
    xs := [];
    var left := s;
    while left != {}
      invariant left <= s && Distinct(xs)
      invariant forall n :: n in xs <==> n in s && n !in left
      decreases left
    {
      var n :| n in left;
      xs := xs + [n];
      left := left - {n};
    }
    xs := SortBy(xs, (n: string) => n);
    forall i, j | 0 <= i < j < |xs|
      ensures Less(xs[i], xs[j])
    {
      Trichotomy(xs[i], xs[j]);
    }
  }
}
