/** How the Modbus driver merges sorted register points into read requests.
    The arithmetic is uint16 throughout, as in the driver. */
module RegisterPlan {
  import opened Words
  import opened GreedySplit

  const MAX_REGS := 125

  /** What getRegCount can answer. */
  type RegWidth = w: int | w == 1 || w == 2 || w == 4 witness 1

  /** A parsed point; width is getRegCount of its format. */
  datatype AddrPoint = AddrPoint(addr: uint16, name: string, width: RegWidth) {
    /** First address after the point, in unbounded arithmetic. */
    function End(): int { addr + width }

    /** The point lies inside the 65536 registers a device can have. */
    predicate Fits() { End() <= MODULUS }

    function LastAddr(): uint16 { Wrap(addr + width - 1) }
  }

  datatype Group = Group(lo: nat, hi: nat, base: uint16, quantity: uint16)

  predicate Sorted(ap: seq<AddrPoint>) {
    forall i, j :: 0 <= i < j < |ap| ==> ap[i].addr <= ap[j].addr
  }

  predicate AllFit(ap: seq<AddrPoint>) {
    forall i :: 0 <= i < |ap| ==> ap[i].Fits()
  }

  /** The variable maxAddr once the points s, ..., e-1 are in the group. */
  function MaxAddr(ap: seq<AddrPoint>, s: nat, e: nat): uint16
    requires s < e <= |ap|
  {
    if e == s + 1 then ap[s].LastAddr()
    else
      var m := MaxAddr(ap, s, e - 1);
      if ap[e - 1].LastAddr() > m then ap[e - 1].LastAddr() else m
  }

  /** Both merge tests, for point j and a group holding s, ..., j-1. */
  predicate Joins(ap: seq<AddrPoint>, s: nat, j: nat)
    requires s < j < |ap|
  {
    && ap[j].addr <= Wrap(MaxAddr(ap, s, j) + 1)
    && Wrap(ap[j].addr + ap[j].width - ap[s].addr) < MAX_REGS
  }

  /** Where the inner loop stops, having accepted s, ..., j-1. */
  function GroupEnd(ap: seq<AddrPoint>, s: nat, j: nat): (e: nat)
    requires s < j <= |ap|
    ensures j <= e <= |ap|
    decreases |ap| - j
  {
    if j == |ap| || !Joins(ap, s, j) then j else GroupEnd(ap, s, j + 1)
  }

  function GroupAt(ap: seq<AddrPoint>, s: nat): Group
    requires s < |ap|
  {
    var e := GroupEnd(ap, s, s + 1);
    Group(s, e, ap[s].addr, Wrap(MaxAddr(ap, s, e) - ap[s].addr + 1))
  }

  function Plan(ap: seq<AddrPoint>, s: nat): seq<Group>
    requires s <= |ap|
    decreases |ap| - s
  {
    if s == |ap| then [] else [GroupAt(ap, s)] + Plan(ap, GroupAt(ap, s).hi)
  }

  // ---- The tests in unbounded arithmetic -------------------------------

  ghost predicate Legal(ap: seq<AddrPoint>, s: nat, e: nat)
    requires s < e <= |ap|
  {
    forall j :: s < j < e ==> Joins(ap, s, j)
  }

  /** The first address beyond every point of the group. */
  function MaxEnd(ap: seq<AddrPoint>, s: nat, e: nat): int
    requires s < e <= |ap|
  {
    if e == s + 1 then ap[s].End()
    else
      var m := MaxEnd(ap, s, e - 1);
      if ap[e - 1].End() > m then ap[e - 1].End() else m
  }

  lemma {:induction false} MaxEndIsBound(ap: seq<AddrPoint>, s: nat, e: nat, k: nat)
    requires s <= k < e <= |ap|
    ensures ap[k].End() <= MaxEnd(ap, s, e)
  {
    if k < e - 1 {
      MaxEndIsBound(ap, s, e - 1, k);
    }
  }

  lemma {:induction false} MaxEndIsReached(ap: seq<AddrPoint>, s: nat, e: nat) returns (k: nat)
    requires s < e <= |ap|
    ensures s <= k < e && ap[k].End() == MaxEnd(ap, s, e)
  {
    if e == s + 1 || ap[e - 1].End() == MaxEnd(ap, s, e) {
      k := e - 1;
    } else {
      k := MaxEndIsReached(ap, s, e - 1);
    }
  }

  lemma {:induction false} MaxAddrIsMaxEnd(ap: seq<AddrPoint>, s: nat, e: nat)
    requires s < e <= |ap| && AllFit(ap)
    ensures MaxAddr(ap, s, e) + 1 == MaxEnd(ap, s, e)
  {
    assert ap[e - 1].Fits();
    if e > s + 1 {
      MaxAddrIsMaxEnd(ap, s, e - 1);
    }
  }

  /** The tests at point j, for a group known to span fewer than 125 registers. */
  lemma {:induction false} JoinsExactStep(ap: seq<AddrPoint>, s: nat, j: nat)
    requires s < j < |ap| && AllFit(ap) && ap[s].addr <= ap[j].addr
    requires ap[s].addr < MaxEnd(ap, s, j) <= MODULUS
    requires MaxEnd(ap, s, j) - ap[s].addr < 125
    ensures Joins(ap, s, j) <==>
              && MaxEnd(ap, s, j) != MODULUS
              && ap[j].addr <= MaxEnd(ap, s, j)
              && ap[j].End() - ap[s].addr < 125
  {
    MaxAddrIsMaxEnd(ap, s, j);
    assert ap[j].Fits();
  }

  /** A legal group spans fewer than 125 registers. */
  lemma {:induction false} SpanBound(ap: seq<AddrPoint>, s: nat, e: nat)
    requires s < e <= |ap| && Sorted(ap) && AllFit(ap) && Legal(ap, s, e)
    ensures ap[s].addr < MaxEnd(ap, s, e) <= MODULUS
    ensures MaxEnd(ap, s, e) - ap[s].addr < 125
  {
    assert ap[s].Fits();
    if e > s + 1 {
      SpanBound(ap, s, e - 1);
      JoinsExactStep(ap, s, e - 1);
      assert ap[e - 1].Fits();
    }
  }

  /** The uint16 tests are the plain ones, except that a group that already
      reaches address 65535 takes no further point. */
  lemma {:induction false} JoinsExact(ap: seq<AddrPoint>, s: nat, j: nat)
    requires s < j < |ap| && Sorted(ap) && AllFit(ap) && Legal(ap, s, j)
    ensures Joins(ap, s, j) <==>
              && MaxEnd(ap, s, j) != MODULUS
              && ap[j].addr <= MaxEnd(ap, s, j)
              && ap[j].End() - ap[s].addr < 125
  {
    SpanBound(ap, s, j);
    JoinsExactStep(ap, s, j);
  }

  // ---- What a plan is ---------------------------------------------------

  lemma {:induction false} GroupEndIsLegal(ap: seq<AddrPoint>, s: nat, j: nat)
    requires s < j <= |ap| && Legal(ap, s, j)
    ensures var e := GroupEnd(ap, s, j);
      Legal(ap, s, e) && (e < |ap| ==> !Joins(ap, s, e))
    decreases |ap| - j
  {
    if j < |ap| && Joins(ap, s, j) {
      GroupEndIsLegal(ap, s, j + 1);
    }
  }

  lemma {:induction false} QuantityBound(ap: seq<AddrPoint>, s: nat, e: nat)
    requires s < e <= |ap| && Sorted(ap) && Legal(ap, s, e)
    ensures 1 <= Wrap(MaxAddr(ap, s, e) - ap[s].addr + 1) <= 124
    ensures e > s + 1 ==> ap[s].addr <= MaxAddr(ap, s, e)
  {
    if e > s + 1 {
      QuantityBound(ap, s, e - 1);
      assert Joins(ap, s, e - 1);
      assert ap[s].addr <= ap[e - 1].addr;
    }
  }

  /** Every request asks for 1 to 124 registers, also when a point runs past
      address 65535 and the driver's arithmetic wraps. */
  lemma RequestIsLegal(ap: seq<AddrPoint>, s: nat)
    requires s < |ap| && Sorted(ap)
    ensures 1 <= GroupAt(ap, s).quantity <= 124
  {
    GroupEndIsLegal(ap, s, s + 1);
    QuantityBound(ap, s, GroupAt(ap, s).hi);
  }

  /** Some point of the group uses the register. */
  ghost predicate Covered(ap: seq<AddrPoint>, s: nat, e: nat, register: int)
    requires s <= e <= |ap|
  {
    exists k :: s <= k < e && ap[k].addr <= register < ap[k].End()
  }

  lemma {:induction false} NoGap(ap: seq<AddrPoint>, s: nat, e: nat, register: int)
    requires s < e <= |ap| && Sorted(ap) && AllFit(ap) && Legal(ap, s, e)
    requires ap[s].addr <= register < MaxEnd(ap, s, e)
    ensures Covered(ap, s, e, register)
  {
    if e > s + 1 && register < MaxEnd(ap, s, e - 1) {
      NoGap(ap, s, e - 1, register);
    } else if e > s + 1 {
      assert Joins(ap, s, e - 1);
      JoinsExact(ap, s, e - 1);
      assert ap[e - 1].addr <= register < ap[e - 1].End();
    } else {
      assert ap[s].addr <= register < ap[s].End();
    }
  }

  /** What one planned request is, for points a device can have: it stays inside
      the address space, holds every point of its group whole, and asks for no
      register that none of them uses. */
  lemma GroupIsExact(ap: seq<AddrPoint>, s: nat)
    requires s < |ap| && Sorted(ap) && AllFit(ap)
    ensures var g := GroupAt(ap, s);
      && 1 <= g.quantity <= 124
      && g.base + g.quantity <= MODULUS
      && (forall k :: g.lo <= k < g.hi ==> g.base <= ap[k].addr && ap[k].End() <= g.base + g.quantity)
      && (forall r :: g.base <= r < g.base + g.quantity ==> Covered(ap, g.lo, g.hi, r))
  {
    var g := GroupAt(ap, s);
    GroupEndIsLegal(ap, s, s + 1);
    SpanBound(ap, s, g.hi);
    MaxAddrIsMaxEnd(ap, s, g.hi);
    assert g.base + g.quantity == MaxEnd(ap, s, g.hi);
    forall k | g.lo <= k < g.hi
      ensures g.base <= ap[k].addr && ap[k].End() <= g.base + g.quantity
    {
      MaxEndIsBound(ap, s, g.hi, k);
    }
    forall r | g.base <= r < g.base + g.quantity
      ensures Covered(ap, g.lo, g.hi, r)
    {
      NoGap(ap, s, g.hi, r);
    }
  }

  // ---- The plan uses the fewest requests --------------------------------

  /** Legal as a rule about splits of 0..|ap|. */
  ghost function LegalGroups(ap: seq<AddrPoint>): Legality {
    (s: nat, e: nat) => s < e <= |ap| && Legal(ap, s, e)
  }

  /** A point where the planner opens a group ends beyond all earlier points,
      up to the last group that ran to address 65535. */
  ghost predicate EndsBeyond(ap: seq<AddrPoint>, g: nat)
    requires g < |ap|
  {
    forall i :: 0 <= i < g ==>
      ap[i].End() < ap[g].End() || exists a :: i <= a < g && ap[a].End() == MODULUS
  }

  /** Why the planner stops before point e: the group runs to address 65535, there is a
      gap, or the group would span too many registers. */
  lemma {:induction false} GroupStops(ap: seq<AddrPoint>, s: nat, e: nat)
    requires s < e < |ap| && Sorted(ap) && AllFit(ap) && Legal(ap, s, e) && !Joins(ap, s, e)
    ensures MaxEnd(ap, s, e) == MODULUS || MaxEnd(ap, s, e) < ap[e].End()
  {
    JoinsExact(ap, s, e);
    SpanBound(ap, s, e);
  }

  lemma EndsBeyondGroup(ap: seq<AddrPoint>, s: nat, e: nat, i: nat)
    requires s <= i < e < |ap| && Sorted(ap) && AllFit(ap) && Legal(ap, s, e) && !Joins(ap, s, e)
    ensures ap[i].End() < ap[e].End() || ap[e - 1].End() == MODULUS
  {
    GroupStops(ap, s, e);
    MaxEndIsBound(ap, s, e, i);
    if MaxEnd(ap, s, e) == MODULUS {
      var top := MaxEndIsReached(ap, s, e);
      if top < e - 1 {
        FullGroupIsLast(ap, s, e, top);
      }
    }
  }

  lemma NextGroupEndsBeyond(ap: seq<AddrPoint>, s: nat)
    requires s < |ap| && Sorted(ap) && AllFit(ap) && EndsBeyond(ap, s)
    requires GroupEnd(ap, s, s + 1) < |ap|
    ensures EndsBeyond(ap, GroupEnd(ap, s, s + 1))
  {
    var e := GroupEnd(ap, s, s + 1);
    GroupEndIsLegal(ap, s, s + 1);
    EndsBeyondGroup(ap, s, e, s);
    forall i | 0 <= i < e
      ensures ap[i].End() < ap[e].End() || exists a :: i <= a < e && ap[a].End() == MODULUS
    {
      if i >= s {
        EndsBeyondGroup(ap, s, e, i);
      } else {
        assert ap[i].End() < ap[s].End() || exists a :: i <= a < s && ap[a].End() == MODULUS;
      }
    }
  }

  /** No point follows, in the same group, one that ends at address 65535. */
  lemma FullGroupIsLast(ap: seq<AddrPoint>, s: nat, e: nat, a: nat)
    requires s <= a < e - 1 && e <= |ap| && Sorted(ap) && AllFit(ap) && Legal(ap, s, e)
    ensures ap[a].End() != MODULUS
  {
    assert Joins(ap, s, a + 1);
    JoinsExact(ap, s, a + 1);
    SpanBound(ap, s, a + 1);
    MaxEndIsBound(ap, s, a + 1, a);
  }

  /** At such a point the group so far ends where the point does. */
  lemma AnchorEndsGroup(ap: seq<AddrPoint>, g: nat, s: nat)
    requires s <= g < |ap| && Sorted(ap) && AllFit(ap) && EndsBeyond(ap, g) && Legal(ap, s, g + 1)
    ensures MaxEnd(ap, s, g + 1) == ap[g].End()
  {
    var top := MaxEndIsReached(ap, s, g + 1);
    assert ap[top].End() >= ap[g].End() by {
      MaxEndIsBound(ap, s, g + 1, g);
    }
    if top < g {
      var a :| top <= a < g && ap[a].End() == MODULUS;
      FullGroupIsLast(ap, s, g + 1, a);
    }
  }

  lemma {:induction false} SameEndFrom(ap: seq<AddrPoint>, g: nat, s: nat, e: nat)
    requires s <= g < e <= |ap| && MaxEnd(ap, s, g + 1) == ap[g].End()
    ensures MaxEnd(ap, g, e) == MaxEnd(ap, s, e)
    decreases e
  {
    if e > g + 1 {
      SameEndFrom(ap, g, s, e - 1);
    }
  }

  /** Cutting a legal group at such a point does not lower where it ends. */
  lemma {:induction false} CutKeepsEnd(ap: seq<AddrPoint>, g: nat, s: nat, e: nat)
    requires s <= g < e <= |ap| && Sorted(ap) && AllFit(ap)
    requires EndsBeyond(ap, g) && Legal(ap, s, e)
    ensures MaxEnd(ap, g, e) == MaxEnd(ap, s, e)
  {
    assert Legal(ap, s, g + 1);
    AnchorEndsGroup(ap, g, s);
    SameEndFrom(ap, g, s, e);
  }

  lemma CutJoinsNext(ap: seq<AddrPoint>, g: nat, s: nat, j: nat)
    requires s <= g < j < |ap| && Sorted(ap) && AllFit(ap)
    requires EndsBeyond(ap, g) && Legal(ap, s, j + 1) && Legal(ap, g, j)
    ensures Joins(ap, g, j)
  {
    assert Legal(ap, s, j);
    assert MaxEnd(ap, g, j) == MaxEnd(ap, s, j) by { CutKeepsEnd(ap, g, s, j); }
    assert ap[s].addr <= ap[g].addr;
    assert ap[j].addr <= MaxEnd(ap, s, j) != MODULUS && ap[j].End() - ap[s].addr < 125 by {
      assert Joins(ap, s, j);
      JoinsExact(ap, s, j);
    }
    JoinsExact(ap, g, j);
  }

  /** A legal group that reaches past such a point can be cut to start there. */
  lemma {:induction false} CutIsLegal(ap: seq<AddrPoint>, g: nat, s: nat, e: nat)
    requires s <= g < e <= |ap| && Sorted(ap) && AllFit(ap)
    requires EndsBeyond(ap, g) && Legal(ap, s, e)
    ensures Legal(ap, g, e)
    decreases e
  {
    if e > g + 1 {
      CutIsLegal(ap, g, s, e - 1);
      CutJoinsNext(ap, g, s, e - 1);
    }
  }

  lemma GroupStartIsAnchored(ap: seq<AddrPoint>, g: nat)
    requires g < |ap| && Sorted(ap) && AllFit(ap) && EndsBeyond(ap, g)
    ensures Anchored(LegalGroups(ap), g, |ap|)
  {
    forall s: nat, e: nat | s <= g < e <= |ap| && LegalGroups(ap)(s, e)
      ensures LegalGroups(ap)(g, e)
    {
      CutIsLegal(ap, g, s, e);
    }
  }

  function Ends(plan: seq<Group>): (ends: seq<nat>)
    ensures |ends| == |plan|
  {
    if plan == [] then [] else [plan[0].hi] + Ends(plan[1..])
  }

  lemma GroupIsLongest(ap: seq<AddrPoint>, s: nat)
    requires s < |ap|
    ensures var e := GroupEnd(ap, s, s + 1);
      LegalGroups(ap)(s, e) && !LegalGroups(ap)(s, e + 1)
  {
    GroupEndIsLegal(ap, s, s + 1);
  }

  lemma {:induction false} PlanIsGreedy(ap: seq<AddrPoint>, s: nat)
    requires s <= |ap| && Sorted(ap) && AllFit(ap)
    requires s < |ap| ==> EndsBeyond(ap, s)
    ensures IsSplit(LegalGroups(ap), s, |ap|, Ends(Plan(ap, s)))
    ensures IsGreedy(LegalGroups(ap), s, |ap|, Ends(Plan(ap, s)))
    decreases |ap| - s
  {
    if s < |ap| {
      var e := GroupEnd(ap, s, s + 1);
      if e < |ap| {
        NextGroupEndsBeyond(ap, s);
      }
      PlanIsGreedy(ap, e);
      GroupIsLongest(ap, s);
      GroupStartIsAnchored(ap, s);
      assert Ends(Plan(ap, s)) == [e] + Ends(Plan(ap, e));
    }
  }

  /** No split of the sorted points into groups that pass the driver's own merge
      tests uses fewer requests than the plan. */
  lemma {:induction false} PlanIsOptimal(ap: seq<AddrPoint>, other: seq<nat>)
    requires Sorted(ap) && AllFit(ap)
    requires IsSplit(LegalGroups(ap), 0, |ap|, other)
    ensures |Plan(ap, 0)| <= |other|
  {
    PlanIsGreedy(ap, 0);
    GreedyStaysAhead(LegalGroups(ap), |ap|, 0, Ends(Plan(ap, 0)), 0, other);
  }
}
