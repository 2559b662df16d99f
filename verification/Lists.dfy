/** List operations that the review engine uses on identities. */
module Lists {

  function Elements<T>(s: seq<T>): set<T> {
    set x | x in s
  }

  /** `appendUnique`. */
  function AppendUnique(values: seq<string>, value: string): (out: seq<string>)
    ensures Elements(out) == Elements(values) + {value}
  {
    if value in values then values else values + [value]
  }

  lemma TakeOneMore<T>(s: seq<T>, n: nat)
    requires 0 < n <= |s|
    ensures s[..n] == s[..n - 1] + [s[n - 1]]
    ensures forall x :: x in s[..n] <==> x in s[..n - 1] || x == s[n - 1]
    ensures Elements(s[..n]) == Elements(s[..n - 1]) + {s[n - 1]}
  {
    assert s[..n] == s[..n - 1] + [s[n - 1]];
  }

  /** `appendUnique` of the first `n` values of `more`. */
  function MergeFirst(values: seq<string>, more: seq<string>, n: nat): (out: seq<string>)
    requires n <= |more|
    ensures forall x :: x in out <==> x in values || x in more[..n]
    ensures values <= out
  {
    if n == 0 then values
    else
      TakeOneMore(more, n);
      AppendUnique(MergeFirst(values, more, n - 1), more[n - 1])
  }

  function Merge(values: seq<string>, more: seq<string>): (out: seq<string>)
    ensures forall x :: x in out <==> x in values || x in more
    ensures values <= out
  {
    assert more[..|more|] == more;
    MergeFirst(values, more, |more|)
  }

  ghost predicate Distinct<T>(s: seq<T>) {
    forall i, j | 0 <= i < j < |s| :: s[i] != s[j]
  }

  lemma {:induction false} ElementsCount<T>(s: seq<T>)
    requires Distinct(s)
    ensures |Elements(s)| == |s|
  {
    if s != [] {
      var front, last := s[..|s| - 1], s[|s| - 1];
      ElementsCount(front);
      assert s == front + [last];
      assert Elements(s) == Elements(front) + {last};
    }
  }

  lemma {:induction false} MergeFirstDistinct(values: seq<string>, more: seq<string>, n: nat)
    requires n <= |more| && Distinct(values)
    ensures Distinct(MergeFirst(values, more, n))
  {
    if n > 0 {
      MergeFirstDistinct(values, more, n - 1);
    }
  }

  lemma {:induction false} MergeIntoNothing(more: seq<string>, n: nat)
    requires n <= |more| && Distinct(more)
    ensures MergeFirst([], more, n) == more[..n]
  {
    if n > 0 {
      MergeIntoNothing(more, n - 1);
      TakeOneMore(more, n);
      assert more[n - 1] !in more[..n - 1];
    }
  }

  /** The values of the first `n` that are kept, in order. */
  function InOrderFirst(all: seq<string>, keep: set<string>, n: nat): (out: seq<string>)
    requires n <= |all|
    ensures forall x :: x in out <==> x in all[..n] && x in keep
  {
    if n == 0 then []
    else
      TakeOneMore(all, n);
      var front := InOrderFirst(all, keep, n - 1);
      if all[n - 1] in keep then front + [all[n - 1]] else front
  }

  function InOrder(all: seq<string>, keep: set<string>): (out: seq<string>)
    ensures forall x :: x in out <==> x in all && x in keep
  {
    assert all[..|all|] == all;
    InOrderFirst(all, keep, |all|)
  }

  lemma {:induction false} InOrderNothing(all: seq<string>, n: nat)
    requires n <= |all|
    ensures InOrderFirst(all, {}, n) == []
  {
    if n > 0 {
      InOrderNothing(all, n - 1);
    }
  }

  /** Only the kept values that occur matter. */
  lemma {:induction false} InOrderCongruence(all: seq<string>, keep: set<string>, keep': set<string>, n: nat)
    requires n <= |all| && forall x | x in all :: x in keep <==> x in keep'
    ensures InOrderFirst(all, keep, n) == InOrderFirst(all, keep', n)
  {
    if n > 0 {
      InOrderCongruence(all, keep, keep', n - 1);
    }
  }

  function Flatten<T>(lists: seq<seq<T>>): seq<T> {
    if lists == [] then [] else Flatten(lists[..|lists| - 1]) + lists[|lists| - 1]
  }

  lemma FlattenSnoc<T>(lists: seq<seq<T>>, last: seq<T>)
    ensures Flatten(lists + [last]) == Flatten(lists) + last
  {
    assert (lists + [last])[..|lists|] == lists;
  }
}
