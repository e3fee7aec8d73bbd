/** Facts about sequences: joined slices, and a function mapped over permutations. */
module Permutations {
  function Apply<A, B>(f: A -> B, s: seq<A>): (t: seq<B>)
    ensures |t| == |s|
    ensures forall i :: 0 <= i < |s| ==> t[i] == f(s[i])
  {
    seq(|s|, i requires 0 <= i < |s| => f(s[i]))
  }

  lemma DropCommon<T>(x: T, a: seq<T>, before: seq<T>, after: seq<T>)
    ensures multiset([x] + a) == multiset(before + [x] + after) <==> multiset(a) == multiset(before + after)
  {
    assert multiset([x] + a) == multiset(a) + multiset{x};
    assert multiset(before + [x] + after) == multiset(before + after) + multiset{x};
    assert multiset(a) == multiset([x] + a) - multiset{x};
    assert multiset(before + after) == multiset(before + [x] + after) - multiset{x};
  }

  lemma ApplyAppend<A, B>(f: A -> B, s: seq<A>, t: seq<A>)
    ensures Apply(f, s + t) == Apply(f, s) + Apply(f, t)
  {
  }

  lemma ApplyAround<A, B>(f: A -> B, before: seq<A>, x: A, after: seq<A>)
    ensures Apply(f, before + [x] + after) == Apply(f, before) + [f(x)] + Apply(f, after)
  {
    ApplyAppend(f, before + [x], after);
    ApplyAppend(f, before, [x]);
    assert Apply(f, [x]) == [f(x)];
  }

  lemma {:induction false} ApplyPermutes<A, B>(f: A -> B, a: seq<A>, b: seq<A>)
    requires multiset(a) == multiset(b)
    ensures multiset(Apply(f, a)) == multiset(Apply(f, b))
    decreases |a|, 0
  {
    if a == [] {
      assert |multiset(b)| == 0;
    } else {
      assert a[0] in multiset(b);
      var j :| 0 <= j < |b| && b[j] == a[0];
      var x, rest, before, after := a[0], a[1..], b[..j], b[j + 1..];
      assert b == before + [x] + after;
      assert a == [x] + rest;
      ApplyPermutesAt(f, x, rest, before, after);
    }
  }

  lemma {:induction false} ApplyPermutesAt<A, B>(f: A -> B, x: A, rest: seq<A>, before: seq<A>, after: seq<A>)
    requires multiset([x] + rest) == multiset(before + [x] + after)
    ensures multiset(Apply(f, [x] + rest)) == multiset(Apply(f, before + [x] + after))
    decreases |rest|, 1
  {
    DropCommon(x, rest, before, after);
    ApplyPermutes(f, rest, before + after);
    ApplyAppend(f, before, after);
    DropCommon(f(x), Apply(f, rest), Apply(f, before), Apply(f, after));
    ApplyAround(f, before, x, after);
    ApplyAppend(f, [x], rest);
    assert Apply(f, [x]) == [f(x)];
  }

  lemma JoinSlices<T>(values: seq<T>, s: nat, m: nat)
    requires s <= m <= |values|
    ensures values[s..m] + values[m..] == values[s..]
  {
  }

  lemma JoinedAt<T>(a: seq<T>, b: seq<T>, i: nat)
    requires |a| <= i < |a| + |b|
    ensures (a + b)[i] == b[i - |a|]
  {
  }
}
