/** How far the planner is optimal: exactly as far as the register space reaches. */
module RegisterWrap {
  import opened GreedySplit
  import opened RegisterPlan

  /** No split of the points into groups that pass the merge tests beats the plan. */
  ghost predicate Optimal(ap: seq<AddrPoint>) {
    forall other :: IsSplit(LegalGroups(ap), 0, |ap|, other) ==> |Plan(ap, 0)| <= |other|
  }

  /** The points lie inside the register space, p apart. */
  ghost predicate DrawnFrom(ap: seq<AddrPoint>, p: AddrPoint) {
    forall i :: 0 <= i < |ap| ==> ap[i].Fits() || ap[i] == p
  }

  /** For a point past the end: the adjacent single registers that leave it just too far
      from the first of them, then the point itself, twice. */
  function Spoiled(p: AddrPoint): (ap: seq<AddrPoint>)
    requires !p.Fits()
    ensures |ap| == 127 - p.width
    ensures forall i :: 0 <= i < 125 - p.width ==> ap[i] == AddrPoint(p.End() - 125 + i, "", 1)
    ensures forall i :: 125 - p.width <= i < |ap| ==> ap[i] == p
  {
    seq(127 - p.width, i requires 0 <= i < 127 - p.width =>
      if i < 125 - p.width then AddrPoint(p.End() - 125 + i, "", 1) else p)
  }

  /** A group of Spoiled ends where its single registers do; p, wrapping, adds nothing. */
  lemma {:induction false} SpoiledEnd(p: AddrPoint, s: nat, j: nat)
    requires !p.Fits() && s < j <= 127 - p.width && s < 125 - p.width
    ensures MaxAddr(Spoiled(p), s, j) == if j <= 125 - p.width then p.End() - 126 + j else p.addr - 1
    decreases j
  {
    if j > s + 1 {
      SpoiledEnd(p, s, j - 1);
    }
  }

  lemma SingleRegistersAreOneGroup(p: AddrPoint)
    requires !p.Fits()
    ensures GroupEnd(Spoiled(p), 0, 1) == 125 - p.width
  {
    var ap, n := Spoiled(p), 125 - p.width;
    var e := GroupEnd(ap, 0, 1);
    GroupEndIsLegal(ap, 0, 1);
    assert !Joins(ap, 0, n) by {
      SpoiledEnd(p, 0, n);
    }
    if e < n {
      SpoiledEnd(p, 0, e);
    }
  }

  lemma WrappedPointIsAlone(p: AddrPoint, s: nat)
    requires !p.Fits() && 125 - p.width <= s < 127 - p.width
    ensures GroupEnd(Spoiled(p), s, s + 1) == s + 1
  {
  }

  lemma LaterStartTakesAll(p: AddrPoint)
    requires !p.Fits()
    ensures Legal(Spoiled(p), 1, 127 - p.width)
  {
    forall j | 1 < j < 127 - p.width
      ensures Joins(Spoiled(p), 1, j)
    {
      SpoiledEnd(p, 1, j);
    }
  }

  lemma SpoiledPlan(p: AddrPoint)
    requires !p.Fits()
    ensures |Plan(Spoiled(p), 0)| == 3
  {
    var ap, n := Spoiled(p), 125 - p.width;
    SingleRegistersAreOneGroup(p);
    WrappedPointIsAlone(p, n);
    WrappedPointIsAlone(p, n + 1);
    assert Plan(ap, n + 2) == [];
    assert |Plan(ap, n + 1)| == 1;
    assert |Plan(ap, n)| == 2;
  }

  /** Three requests are planned where two groups pass the same merge tests. */
  lemma SpoiledIsNotOptimal(p: AddrPoint)
    requires !p.Fits()
    ensures Sorted(Spoiled(p)) && DrawnFrom(Spoiled(p), p) && !Optimal(Spoiled(p))
  {
    var ap := Spoiled(p);
    SpoiledPlan(p);
    LaterStartTakesAll(p);
    assert [1, |ap|][1..] == [|ap|] && [|ap|][1..] == [];
    assert IsSplit(LegalGroups(ap), |ap|, |ap|, []);
    assert IsSplit(LegalGroups(ap), 1, |ap|, [|ap|]);
    assert IsSplit(LegalGroups(ap), 0, |ap|, [1, |ap|]);
  }

  lemma FittingIsOptimal(ap: seq<AddrPoint>)
    requires Sorted(ap) && AllFit(ap)
    ensures Optimal(ap)
  {
    forall other | IsSplit(LegalGroups(ap), 0, |ap|, other)
      ensures |Plan(ap, 0)| <= |other|
    {
      PlanIsOptimal(ap, other);
    }
  }

  /** A point can be planned with optimally, whatever points of the register space it is
      listed with, exactly when it lies in that space itself. */
  lemma OptimalIff(p: AddrPoint)
    ensures p.Fits() <==> forall ap :: Sorted(ap) && DrawnFrom(ap, p) ==> Optimal(ap)
  {
    if p.Fits() {
      forall ap | Sorted(ap) && DrawnFrom(ap, p)
        ensures Optimal(ap)
      {
        FittingIsOptimal(ap);
      }
    } else {
      SpoiledIsNotOptimal(p);
    }
  }
}
