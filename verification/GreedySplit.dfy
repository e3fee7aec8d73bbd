/** Splitting the index range 0..n into consecutive groups, and when taking the
    longest legal group each time needs the fewest groups. */
module GreedySplit {
  /** legal(s, e): the elements s, ..., e-1 may share one group. */
  type Legality = (nat, nat) -> bool

  /** ends lists where each group stops, for a split of from..n into legal groups. */
  ghost predicate IsSplit(legal: Legality, from: nat, n: nat, ends: seq<nat>)
    decreases |ends|
  {
    if ends == [] then from == n
    else from < ends[0] <= n && legal(from, ends[0]) && IsSplit(legal, ends[0], n, ends[1..])
  }

  ghost predicate PrefixClosed(legal: Legality, n: nat) {
    forall s: nat, e: nat, f: nat {:trigger legal(s, e), legal(s, f)} ::
      s < e <= f <= n && legal(s, f) ==> legal(s, e)
  }

  /** Every legal group that reaches beyond g stays legal when cut to start at g. */
  ghost predicate Anchored(legal: Legality, g: nat, n: nat) {
    forall s: nat, e: nat :: s <= g < e <= n && legal(s, e) ==> legal(g, e)
  }

  /** A split whose groups are as long as they can be and start at anchored points. */
  ghost predicate IsGreedy(legal: Legality, from: nat, n: nat, ends: seq<nat>)
    decreases |ends|
  {
    ends != [] ==>
      && Anchored(legal, from, n)
      && (ends[0] < n ==> !legal(from, ends[0] + 1))
      && IsGreedy(legal, ends[0], n, ends[1..])
  }

  /** Greedy stays ahead: no split that starts no later uses fewer groups. */
  lemma {:induction false} GreedyStaysAhead(
    legal: Legality, n: nat, g: nat, greedy: seq<nat>, o: nat, other: seq<nat>)
    requires PrefixClosed(legal, n)
    requires IsSplit(legal, g, n, greedy) && IsGreedy(legal, g, n, greedy)
    requires IsSplit(legal, o, n, other)
    requires o <= g
    ensures |greedy| <= |other|
    decreases |greedy|
  {
    if greedy != [] {
      if other[0] > greedy[0] {
        assert false;
      }
      GreedyStaysAhead(legal, n, greedy[0], greedy[1..], other[0], other[1..]);
    }
  }
}
