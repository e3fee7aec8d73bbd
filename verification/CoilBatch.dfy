/** Batched reading of coils and discrete inputs (readCoilsBatch, function 01, and
    readDiscreteInputsBatch, function 02). The points come sorted by address. */
module CoilBatch {
  import opened Dynamic
  import opened Words
  import opened RegisterBatch
  import opened Packing

  const MAX_COILS := 2000

  datatype CoilPoint = CoilPoint(addr: uint16, name: string)

  type CoilClient = (nat, uint16, uint16) -> Option<seq<bv8>>

  predicate SortedCoils(cp: seq<CoilPoint>) {
    forall i, j :: 0 <= i < j < |cp| ==> cp[i].addr <= cp[j].addr
  }

  /** The merge test; maxAddr is always the address of point j-1. */
  predicate CoilJoins(cp: seq<CoilPoint>, s: nat, j: nat)
    requires s < j < |cp|
  {
    cp[j].addr == Wrap(cp[j - 1].addr + 1) && Wrap(cp[j].addr - cp[s].addr) < MAX_COILS
  }

  function CoilGroupEnd(cp: seq<CoilPoint>, s: nat, j: nat): (e: nat)
    requires s < j <= |cp|
    ensures j <= e <= |cp|
    decreases |cp| - j
  {
    if j == |cp| || !CoilJoins(cp, s, j) then j else CoilGroupEnd(cp, s, j + 1)
  }

  function CoilPlan(cp: seq<CoilPoint>, s: nat): (ends: seq<nat>)
    requires s <= |cp|
    decreases |cp| - s
  {
    if s == |cp| then [] else
      var e := CoilGroupEnd(cp, s, s + 1);
      [e] + CoilPlan(cp, e)
  }

  function CoilRequest(cp: seq<CoilPoint>, s: nat, e: nat): Request
    requires s < e <= |cp|
  {
    Request(cp[s].addr, Wrap(cp[e - 1].addr as int - cp[s].addr + 1))
  }

  // ---- One answer -------------------------------------------------------

  /** The entries of points lo, ..., hi-1; a bit beyond the answer is an index panic. */
  function CoilEntries(cp: seq<CoilPoint>, lo: nat, hi: nat, base: uint16, bytes: seq<bv8>): Outcome<seq<PointValue>>
    requires lo <= hi <= |cp|
  {
    if lo == hi then Done([])
    else
      match CoilEntries(cp, lo, hi - 1, base, bytes)
      case Done(before) =>
        var offset := Wrap(cp[hi - 1].addr - base);
        if offset / 8 < |bytes| then Done(before + [Good(cp[hi - 1].name, Bool(BitAt(bytes, offset)))])
        else Panicked
      case stopped => stopped
  }

  // ---- A whole run ------------------------------------------------------

  function CoilRun(cp: seq<CoilPoint>, client: CoilClient, s: nat, sent: nat): BatchRun
    requires s <= |cp|
    decreases |cp| - s
  {
    if s == |cp| then BatchRun(Done([]), [])
    else
      var e := CoilGroupEnd(cp, s, s + 1);
      var request := CoilRequest(cp, s, e);
      match client(sent, request.base, request.quantity)
      case None => BatchRun(Failed(ReadFailed), [request])
      case Some(bytes) =>
        match CoilEntries(cp, s, e, request.base, bytes)
        case Done(values) => Continue(values, [request], CoilRun(cp, client, e, sent + 1))
        case stopped => BatchRun(stopped, [request])
  }

  // ---- The driver's loops -----------------------------------------------

  method FindCoilGroup(cp: seq<CoilPoint>, start: nat) returns (end: nat, maxAddr: uint16)
    requires start < |cp|
    ensures start <= end < |cp| && end + 1 == CoilGroupEnd(cp, start, start + 1)
    ensures maxAddr == cp[end].addr
  {
    end := start;
    maxAddr := cp[start].addr;
    var j := start + 1;
    while j < |cp|
      invariant start < j <= |cp| && end == j - 1
      invariant maxAddr == cp[end].addr
      invariant CoilGroupEnd(cp, start, j) == CoilGroupEnd(cp, start, start + 1)
    {
      if cp[j].addr == Wrap(maxAddr + 1) && Wrap(cp[j].addr - cp[start].addr) < MAX_COILS {
        maxAddr := cp[j].addr;
        end := j;
      } else {
        break;
      }
      j := j + 1;
    }
  }

  method ReadCoilGroup(cp: seq<CoilPoint>, start: nat, end: nat, baseAddr: uint16, coils: seq<bv8>)
    returns (r: Outcome<seq<PointValue>>)
    requires start <= end < |cp|
    ensures r == CoilEntries(cp, start, end + 1, baseAddr, coils)
  {
    var values: seq<PointValue> := [];
    var k := start;
    while k <= end
      invariant start <= k <= end + 1
      invariant CoilEntries(cp, start, k, baseAddr, coils) == Done(values)
    {
      var offset := Wrap(cp[k].addr - baseAddr);
      if offset / 8 >= |coils| {
        CoilPanicIsFinal(cp, start, k + 1, end + 1, baseAddr, coils);
        return Panicked;
      }
      var val := BitOf(coils[offset / 8], offset % 8);
      values := values + [Good(cp[k].name, Bool(val))];
      k := k + 1;
    }
    r := Done(values);
  }

  lemma {:induction false} CoilPanicIsFinal(cp: seq<CoilPoint>, lo: nat, mid: nat, hi: nat, base: uint16, bytes: seq<bv8>)
    requires lo <= mid <= hi <= |cp| && CoilEntries(cp, lo, mid, base, bytes) == Panicked
    ensures CoilEntries(cp, lo, hi, base, bytes) == Panicked
    decreases hi
  {
    if mid < hi {
      CoilPanicIsFinal(cp, lo, mid, hi - 1, base, bytes);
    }
  }

  /** One turn of the outer loop: plan a group, request it, slice the answer. */
  method ReadNextCoils(cp: seq<CoilPoint>, i: nat, sent: nat, client: CoilClient)
    returns (r: Outcome<seq<PointValue>>, request: Request, next: nat)
    requires i < |cp|
    ensures i < next <= |cp|
    ensures CoilRun(cp, client, i, sent)
         == if r.Done? then Continue(r.value, [request], CoilRun(cp, client, next, sent + 1)) else BatchRun(r, [request])
  {
    var end, maxAddr := FindCoilGroup(cp, i);
    var baseAddr := cp[i].addr;
    request := Request(baseAddr, Wrap(maxAddr as int - baseAddr + 1));
    next := end + 1;
    var answer := client(sent, request.base, request.quantity);
    if answer == None {
      return Failed(ReadFailed), request, next;
    }
    r := ReadCoilGroup(cp, i, end, baseAddr, answer.value);
  }

  method ReadCoilsSorted(cp: seq<CoilPoint>, client: CoilClient)
    returns (r: Outcome<seq<PointValue>>, requests: seq<Request>)
    ensures BatchRun(r, requests) == CoilRun(cp, client, 0, 0)
  {
    var results: seq<PointValue> := [];
    requests := [];
    var i, sent := 0, 0;
    ghost var whole := CoilRun(cp, client, 0, 0);
    ghost var rest := whole;
    ContinueFromNothing(rest);
    while i < |cp|
      invariant 0 <= i <= |cp|
      invariant rest == CoilRun(cp, client, i, sent)
      invariant whole == Continue(results, requests, rest)
    {
      var values, request, next := ReadNextCoils(cp, i, sent, client);
      if !values.Done? {
        return values, requests + [request];
      }
      rest := CoilRun(cp, client, next, sent + 1);
      ContinueTwice(results, requests, values.value, [request], rest);
      results := results + values.value;
      requests := requests + [request];
      i, sent := next, sent + 1;
    }
    assert rest == BatchRun(Done([]), []);
    assert results + [] == results && requests + [] == requests;
    r := Done(results);
  }

  // ---- What a group is --------------------------------------------------

  ghost predicate CoilLegal(cp: seq<CoilPoint>, s: nat, e: nat)
    requires s < e <= |cp|
  {
    forall j :: s < j < e ==> CoilJoins(cp, s, j)
  }

  lemma {:induction false} CoilGroupEndIsLegal(cp: seq<CoilPoint>, s: nat, j: nat)
    requires s < j <= |cp| && CoilLegal(cp, s, j)
    ensures var e := CoilGroupEnd(cp, s, j);
      CoilLegal(cp, s, e) && (e < |cp| ==> !CoilJoins(cp, s, e))
    decreases |cp| - j
  {
    if j < |cp| && CoilJoins(cp, s, j) {
      CoilGroupEndIsLegal(cp, s, j + 1);
    }
  }

  /** Legal groups are the runs of consecutive addresses of length at most 2000. */
  lemma {:induction false} LegalIsRun(cp: seq<CoilPoint>, s: nat, e: nat)
    requires s < e <= |cp| && SortedCoils(cp)
    ensures CoilLegal(cp, s, e) <==>
      e - s <= 2000 && forall k :: s <= k < e ==> cp[k].addr == cp[s].addr + (k - s)
  {
    if e > s + 1 {
      LegalIsRun(cp, s, e - 1);
      assert cp[s].addr <= cp[e - 1].addr;
      assert CoilLegal(cp, s, e) <==> CoilLegal(cp, s, e - 1) && CoilJoins(cp, s, e - 1);
    }
  }
}
