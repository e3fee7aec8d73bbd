/** What batched coil reading guarantees: its groups, its index safety, its agreement
    with reading every coil on its own, and that it sends the fewest requests. */
module CoilReading {
  import opened Dynamic
  import opened Words
  import opened GreedySplit
  import opened RegisterBatch
  import opened Packing
  import opened Permutations
  import opened CoilBatch

  // ---- Groups -----------------------------------------------------------

  /** Each request covers a run of 1 to 2000 consecutive coils, one per point, and
      the run stops only at the end of the list, at an address that is not the next
      one, or at 2000 coils. */
  lemma CoilGroupIsRun(cp: seq<CoilPoint>, s: nat)
    requires s < |cp| && SortedCoils(cp)
    ensures var e := CoilGroupEnd(cp, s, s + 1);
      var request := CoilRequest(cp, s, e);
      && s < e <= |cp|
      && 1 <= request.quantity == e - s <= 2000
      && request.base + request.quantity <= MODULUS
      && (forall k :: s <= k < e ==> cp[k].addr == request.base + (k - s))
      && (e < |cp| ==> cp[e].addr != cp[e - 1].addr + 1 || request.quantity == 2000)
  {
    var e := CoilGroupEnd(cp, s, s + 1);
    CoilGroupEndIsLegal(cp, s, s + 1);
    LegalIsRun(cp, s, e);
    assert cp[e - 1].addr == cp[s].addr + (e - 1 - s);
  }

  ghost function CoilGroups(cp: seq<CoilPoint>): Legality {
    (s: nat, e: nat) => s < e <= |cp| && CoilLegal(cp, s, e)
  }

  lemma CoilsAreAnchored(cp: seq<CoilPoint>, g: nat)
    requires SortedCoils(cp)
    ensures Anchored(CoilGroups(cp), g, |cp|)
  {
    forall s: nat, e: nat | s <= g < e <= |cp| && CoilGroups(cp)(s, e)
      ensures CoilGroups(cp)(g, e)
    {
      LegalIsRun(cp, s, e);
      assert cp[g].addr == cp[s].addr + (g - s);
      LegalIsRun(cp, g, e);
    }
  }

  lemma {:induction false} CoilPlanIsGreedy(cp: seq<CoilPoint>, s: nat)
    requires s <= |cp| && SortedCoils(cp)
    ensures IsSplit(CoilGroups(cp), s, |cp|, CoilPlan(cp, s))
    ensures IsGreedy(CoilGroups(cp), s, |cp|, CoilPlan(cp, s))
    decreases |cp| - s
  {
    if s < |cp| {
      var e := CoilGroupEnd(cp, s, s + 1);
      CoilGroupEndIsLegal(cp, s, s + 1);
      assert CoilGroups(cp)(s, e) && !CoilGroups(cp)(s, e + 1);
      CoilPlanIsGreedy(cp, e);
      CoilsAreAnchored(cp, s);
      assert CoilPlan(cp, s) == [e] + CoilPlan(cp, e);
    }
  }

  /** No split into groups that pass the driver's merge test uses fewer requests,
      for any addresses, repeated ones included. */
  lemma {:induction false} CoilPlanIsOptimal(cp: seq<CoilPoint>, other: seq<nat>)
    requires SortedCoils(cp) && IsSplit(CoilGroups(cp), 0, |cp|, other)
    ensures |CoilPlan(cp, 0)| <= |other|
  {
    CoilPlanIsGreedy(cp, 0);
    GreedyStaysAhead(CoilGroups(cp), |cp|, 0, CoilPlan(cp, 0), 0, other);
  }

  // ---- Answers of any length --------------------------------------------

  /** Over a run of consecutive addresses the slicing panics exactly when the answer
      has fewer bytes than the run needs; otherwise each point gets its own bit. */
  lemma {:induction false} CoilEntriesExact(cp: seq<CoilPoint>, lo: nat, hi: nat, base: uint16, bytes: seq<bv8>)
    requires lo <= hi <= |cp| && base + (hi - lo) <= MODULUS
    requires forall k :: lo <= k < hi ==> cp[k].addr == base + (k - lo)
    ensures var r := CoilEntries(cp, lo, hi, base, bytes);
      if ByteCount(hi - lo) <= |bytes| then
        && r.Done? && |r.value| == hi - lo
        && forall i :: 0 <= i < hi - lo ==> r.value[i] == Good(cp[lo + i].name, Bool(BitAt(bytes, i)))
      else r == Panicked
    decreases hi
  {
    if lo < hi {
      CoilEntriesExact(cp, lo, hi - 1, base, bytes);
      assert cp[hi - 1].addr == base + (hi - 1 - lo);
    }
  }

  /** How many groups of the plan are answered in full, before the first that is not. */
  function Served(cp: seq<CoilPoint>, client: CoilClient, s: nat, sent: nat): nat
    requires s <= |cp|
    decreases |cp| - s
  {
    if s == |cp| then 0
    else
      var e := CoilGroupEnd(cp, s, s + 1);
      var request := CoilRequest(cp, s, e);
      var answer := client(sent, request.base, request.quantity);
      if answer == None || |answer.value| < ByteCount(e - s) then 0
      else 1 + Served(cp, client, e, sent + 1)
  }

  /** How a run that was not fully served ends, given the request it stopped at. */
  ghost predicate StopsAt(result: Outcome<seq<PointValue>>, request: Request, answer: Option<seq<bv8>>) {
    match answer
    case None => result == Failed(ReadFailed)
    case Some(bytes) => |bytes| < ByteCount(request.quantity) && result == Panicked
  }

  /** One turn of the outer loop. */
  lemma {:induction false} CoilRunTurn(cp: seq<CoilPoint>, client: CoilClient, s: nat, sent: nat, e: nat,
                                       request: Request)
    requires s < |cp| && SortedCoils(cp)
    requires e == CoilGroupEnd(cp, s, s + 1) && request == CoilRequest(cp, s, e)
    ensures var answer := client(sent, request.base, request.quantity);
      if answer == None || |answer.value| < ByteCount(e - s) then
        && Served(cp, client, s, sent) == 0
        && CoilRun(cp, client, s, sent).requests == [request]
        && StopsAt(CoilRun(cp, client, s, sent).result, request, answer)
      else
        && Served(cp, client, s, sent) == 1 + Served(cp, client, e, sent + 1)
        && CoilEntries(cp, s, e, request.base, answer.value).Done?
        && var values := CoilEntries(cp, s, e, request.base, answer.value).value;
        && |values| == e - s
        && CoilRun(cp, client, s, sent) == Continue(values, [request], CoilRun(cp, client, e, sent + 1))
  {
    var answer := client(sent, request.base, request.quantity);
    CoilGroupIsRun(cp, s);
    if answer.Some? {
      CoilEntriesExact(cp, s, e, request.base, answer.value);
    }
  }

  /** A run over the points from s on that came to an end after so many full answers. */
  ghost predicate EndsAfter(cp: seq<CoilPoint>, client: CoilClient, s: nat, sent: nat, run: BatchRun, served: nat)
    requires s <= |cp|
  {
    if served == |CoilPlan(cp, s)| then
      run.result.Done? && |run.result.value| == |cp| - s && |run.requests| == served
    else
      && served < |CoilPlan(cp, s)| && |run.requests| == served + 1
      && var last := run.requests[served];
         StopsAt(run.result, last, client(sent + served, last.base, last.quantity))
  }

  lemma {:induction false} OneMoreServed(cp: seq<CoilPoint>, client: CoilClient, s: nat, sent: nat, e: nat,
                                         request: Request,
                      values: seq<PointValue>, rest: BatchRun, served: nat)
    requires s < e <= |cp| && |values| == e - s && |CoilPlan(cp, s)| == 1 + |CoilPlan(cp, e)|
    requires EndsAfter(cp, client, e, sent + 1, rest, served)
    ensures EndsAfter(cp, client, s, sent, Continue(values, [request], rest), 1 + served)
  {
    var run := Continue(values, [request], rest);
    if served < |CoilPlan(cp, e)| {
      assert run.requests[1 + served] == rest.requests[served];
      assert sent + (1 + served) == sent + 1 + served;
    }
  }

  lemma {:induction false} NoneServed(cp: seq<CoilPoint>, client: CoilClient, s: nat, sent: nat, run: BatchRun,
                                      request: Request)
    requires s <= |cp| && CoilPlan(cp, s) != [] && run.requests == [request]
    requires StopsAt(run.result, request, client(sent, request.base, request.quantity))
    ensures EndsAfter(cp, client, s, sent, run, 0)
  {
    assert sent + 0 == sent;
  }

  /** For any answers: the run returns one entry per point if every group was answered
      in full; otherwise it stops at the first group that was not, with the client's
      error or, when the answer was too short, with a panic. */
  lemma {:induction false} CoilRunOutcome(cp: seq<CoilPoint>, client: CoilClient, s: nat, sent: nat)
    requires s <= |cp| && SortedCoils(cp)
    ensures EndsAfter(cp, client, s, sent, CoilRun(cp, client, s, sent), Served(cp, client, s, sent))
    decreases |cp| - s
  {
    if s < |cp| {
      var e := CoilGroupEnd(cp, s, s + 1);
      var request := CoilRequest(cp, s, e);
      assert |CoilPlan(cp, s)| == 1 + |CoilPlan(cp, e)|;
      CoilRunTurn(cp, client, s, sent, e, request);
      var answer := client(sent, request.base, request.quantity);
      if answer == None || |answer.value| < ByteCount(e - s) {
        NoneServed(cp, client, s, sent, CoilRun(cp, client, s, sent), request);
      } else {
        var values, rest := CoilEntries(cp, s, e, request.base, answer.value).value, CoilRun(cp, client, e, sent + 1);
        var served := Served(cp, client, e, sent + 1);
        CoilRunOutcome(cp, client, e, sent + 1);
        assert EndsAfter(cp, client, s, sent, Continue(values, [request], rest), 1 + served) by {
          OneMoreServed(cp, client, s, sent, e, request, values, rest, served);
        }
      }
    }
  }

  /** v is the bit of point k, at its place in the given answer to the group opened at lo. */
  ghost predicate IsOwnBit(cp: seq<CoilPoint>, client: CoilClient, call: nat, lo: nat, k: nat, v: PointValue)
    requires lo <= k < |cp|
  {
    && k < CoilGroupEnd(cp, lo, lo + 1)
    && var request := CoilRequest(cp, lo, CoilGroupEnd(cp, lo, lo + 1));
       var answer := client(call, request.base, request.quantity);
    && answer.Some? && request.base <= cp[k].addr && cp[k].addr - request.base < 8 * |answer.value|
    && v == Good(cp[k].name, Bool(BitAt(answer.value, cp[k].addr - request.base)))
  }

  /** The values are those of the group s, ..., e-1, cut from its answer. */
  predicate IsFirstGroup(cp: seq<CoilPoint>, client: CoilClient, s: nat, sent: nat, e: nat, values: seq<PointValue>)
    requires s < e <= |cp|
  {
    var request := CoilRequest(cp, s, e);
    var answer := client(sent, request.base, request.quantity);
    answer.Some? && |values| == e - s && CoilEntries(cp, s, e, request.base, answer.value) == Done(values)
  }

  /** The entries of a finished run: those of its first group, then the rest. */
  lemma {:induction false} CoilRunValues(cp: seq<CoilPoint>, client: CoilClient, s: nat, sent: nat, e: nat)
    returns (values: seq<PointValue>, rest: seq<PointValue>)
    requires s < |cp| && SortedCoils(cp) && CoilRun(cp, client, s, sent).result.Done?
    requires e == CoilGroupEnd(cp, s, s + 1)
    ensures IsFirstGroup(cp, client, s, sent, e, values)
    ensures CoilRun(cp, client, e, sent + 1).result == Done(rest)
    ensures CoilRun(cp, client, s, sent).result == Done(values + rest)
  {
    var request := CoilRequest(cp, s, e);
    CoilRunTurn(cp, client, s, sent, e, request);
    values := CoilEntries(cp, s, e, request.base, client(sent, request.base, request.quantity).value).value;
    rest := CoilRun(cp, client, e, sent + 1).result.value;
  }

  lemma {:induction false} FirstGroupBit(cp: seq<CoilPoint>, client: CoilClient, s: nat, sent: nat, k: nat,
                                         values: seq<PointValue>)
    requires s < |cp| && s <= k < CoilGroupEnd(cp, s, s + 1) && SortedCoils(cp)
    requires IsFirstGroup(cp, client, s, sent, CoilGroupEnd(cp, s, s + 1), values)
    ensures IsOwnBit(cp, client, sent, s, k, values[k - s])
  {
    var e := CoilGroupEnd(cp, s, s + 1);
    var request := CoilRequest(cp, s, e);
    CoilGroupIsRun(cp, s);
    CoilEntriesExact(cp, s, e, request.base, client(sent, request.base, request.quantity).value);
    assert cp[s + (k - s)].addr == request.base + (k - s);
  }

  /** For any answers: entry k of a finished run is the bit at its own coil's place in
      the answer to its own group, which opens at lo and is answered by that call. */
  lemma {:induction false} CoilRunEntry(cp: seq<CoilPoint>, client: CoilClient, s: nat, sent: nat,
                                        entries: seq<PointValue>, k: nat)
    returns (call: nat, lo: nat)
    requires s <= k < |cp| && SortedCoils(cp) && CoilRun(cp, client, s, sent).result == Done(entries)
    ensures s <= lo <= k && IsCall(cp, s, sent, lo, call)
    ensures k - s < |entries| && IsOwnBit(cp, client, call, lo, k, entries[k - s])
    decreases |cp| - s
  {
    var e := CoilGroupEnd(cp, s, s + 1);
    var values, rest := CoilRunValues(cp, client, s, sent, e);
    if k < e {
      call, lo := sent, s;
      assert entries[k - s] == values[k - s];
      assert IsOwnBit(cp, client, sent, s, k, values[k - s]) by {
        FirstGroupBit(cp, client, s, sent, k, values);
      }
    } else {
      call, lo := CoilRunEntry(cp, client, e, sent + 1, rest, k);
      assert entries[k - s] == rest[k - e] by {
        JoinedAt(values, rest, k - s);
      }
    }
  }

  /** Over the points from s on, the group opened at lo is the one that call asks for. */
  predicate IsCall(cp: seq<CoilPoint>, s: nat, sent: nat, lo: nat, call: nat)
    requires s < |cp|
    decreases |cp| - s
  {
    if lo == s then call == sent
    else
      var e := CoilGroupEnd(cp, s, s + 1);
      e < |cp| && IsCall(cp, e, sent + 1, lo, call)
  }

  // ---- A device with fixed coils ----------------------------------------

  type Coils = uint16 -> bool

  function CoilBits(mem: Coils, base: uint16, quantity: uint16): (bits: seq<bool>)
    requires base + quantity <= MODULUS
    ensures |bits| == quantity
    ensures forall i :: 0 <= i < quantity ==> bits[i] == mem(base + i)
  {
    seq(quantity, i requires 0 <= i < quantity => mem(base + i))
  }

  /** Sections 6.1 and 6.2 of MODBUS V1.1b3: 1 to 2000 coils, all of them present,
      answered low bit first. */
  function CoilDevice(mem: Coils): CoilClient {
    (sent: nat, base: uint16, quantity: uint16) =>
      if 1 <= quantity <= 2000 && base + quantity <= MODULUS then Some(PackBits(CoilBits(mem, base, quantity)))
      else None
  }

  function ReadCoil(mem: Coils): CoilPoint -> PointValue {
    (p: CoilPoint) => Good(p.name, Bool(mem(p.addr)))
  }

  /** The bits s, ..., e-1 of the answer are what single reads of those coils give. */
  lemma {:induction false} OwnBitIsRead(cp: seq<CoilPoint>, mem: Coils, s: nat, e: nat, i: nat)
    requires s < e <= |cp| && cp[s].addr + (e - s) <= MODULUS && e - s < MODULUS && i < e - s
    requires cp[s + i].addr == cp[s].addr + i
    ensures Good(cp[s + i].name, Bool(BitAt(PackBits(CoilBits(mem, cp[s].addr, e - s)), i))) == ReadCoil(mem)(cp[s + i])
  {
    PackBitsExact(CoilBits(mem, cp[s].addr, e - s), i);
  }

  lemma {:induction false} CoilEntriesReadMemory(cp: seq<CoilPoint>, mem: Coils, s: nat, e: nat)
    requires s < e <= |cp| && cp[s].addr + (e - s) <= MODULUS && e - s < MODULUS
    requires forall k :: s <= k < e ==> cp[k].addr == cp[s].addr + (k - s)
    ensures CoilEntries(cp, s, e, cp[s].addr, PackBits(CoilBits(mem, cp[s].addr, e - s)))
         == Done(Apply(ReadCoil(mem), cp)[s..e])
  {
    var bytes, own := PackBits(CoilBits(mem, cp[s].addr, e - s)), Apply(ReadCoil(mem), cp)[s..e];
    CoilEntriesExact(cp, s, e, cp[s].addr, bytes);
    var values := CoilEntries(cp, s, e, cp[s].addr, bytes).value;
    forall i | 0 <= i < e - s
      ensures values[i] == own[i]
    {
      assert cp[s + i].addr == cp[s].addr + i;
      OwnBitIsRead(cp, mem, s, e, i);
    }
    assert values == own;
  }

  lemma {:induction false} CoilRunReadsMemory(cp: seq<CoilPoint>, mem: Coils, s: nat, sent: nat)
    requires s <= |cp| && SortedCoils(cp)
    ensures CoilRun(cp, CoilDevice(mem), s, sent).result == Done(Apply(ReadCoil(mem), cp)[s..])
    decreases |cp| - s
  {
    if s < |cp| {
      var e, all := CoilGroupEnd(cp, s, s + 1), Apply(ReadCoil(mem), cp);
      CoilGroupIsRun(cp, s);
      CoilEntriesReadMemory(cp, mem, s, e);
      CoilRunTurn(cp, CoilDevice(mem), s, sent, e, CoilRequest(cp, s, e));
      CoilRunReadsMemory(cp, mem, e, sent + 1);
      JoinSlices(all, s, e);
      assert CoilRun(cp, CoilDevice(mem), s, sent).result == Done(all[s..e] + all[e..]);
    }
  }

  function CoilsOneByOne(cp: seq<CoilPoint>, client: CoilClient): Outcome<seq<PointValue>> {
    if cp == [] then Done([])
    else
      var first := CoilRun([cp[0]], client, 0, 0).result;
      if !first.Done? then first
      else
        var rest := CoilsOneByOne(cp[1..], client);
        if rest.Done? then Done(first.value + rest.value) else rest
  }

  lemma {:induction false} CoilsOneByOneReadMemory(cp: seq<CoilPoint>, mem: Coils)
    ensures CoilsOneByOne(cp, CoilDevice(mem)) == Done(Apply(ReadCoil(mem), cp))
  {
    if cp != [] {
      CoilsOneByOneReadMemory(cp[1..], mem);
      CoilRunReadsMemory([cp[0]], mem, 0, 0);
      var read := ReadCoil(mem);
      assert Apply(read, [cp[0]])[0..] + Apply(read, cp[1..]) == Apply(read, cp);
    }
  }

  /** The batch returns what reading every coil alone would, for any addresses,
      repeated ones included. */
  lemma {:induction false} CoilBatchRefinesSingleReads(cp: seq<CoilPoint>, mem: Coils)
    requires SortedCoils(cp)
    ensures CoilRun(cp, CoilDevice(mem), 0, 0).result == CoilsOneByOne(cp, CoilDevice(mem))
         == Done(Apply(ReadCoil(mem), cp))
  {
    CoilRunReadsMemory(cp, mem, 0, 0);
    CoilsOneByOneReadMemory(cp, mem);
    assert Apply(ReadCoil(mem), cp)[0..] == Apply(ReadCoil(mem), cp);
  }
}
