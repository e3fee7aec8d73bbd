/** What batched register reading guarantees: its requests, its entries for any
    answers, and its agreement with reading every point on its own. */
module RegisterReading {
  import opened Dynamic
  import opened Words
  import opened RegisterPlan
  import opened RegisterBatch
  import opened GreedySplit
  import opened Permutations

  // ---- Any client -------------------------------------------------------

  /** The groups cut s..|ap| into consecutive non-empty pieces. */
  ghost predicate Partitions(plan: seq<Group>, s: nat, n: nat)
    decreases |plan|
  {
    if plan == [] then s == n
    else plan[0].lo == s < plan[0].hi <= n && Partitions(plan[1..], plan[0].hi, n)
  }

  lemma {:induction false} PlanPartitions(ap: seq<AddrPoint>, s: nat)
    requires s <= |ap|
    ensures Partitions(Plan(ap, s), s, |ap|)
    decreases |ap| - s
  {
    if s < |ap| {
      PlanPartitions(ap, GroupAt(ap, s).hi);
      assert Plan(ap, s)[1..] == Plan(ap, GroupAt(ap, s).hi);
    }
  }

  function RequestsOf(plan: seq<Group>): (requests: seq<Request>)
    ensures |requests| == |plan|
  {
    if plan == [] then [] else [Request(plan[0].base, plan[0].quantity)] + RequestsOf(plan[1..])
  }

  /** How many of the planned requests are answered before the first error. */
  function Answered(client: Client, plan: seq<Group>, sent: nat): (count: nat)
    ensures count <= |plan|
  {
    if plan == [] || client(sent, plan[0].base, plan[0].quantity) == None then 0
    else 1 + Answered(client, plan[1..], sent + 1)
  }

  /** A run sends the planned requests in order. At the first error it stops, having
      sent nothing after the refused request, and returns no entry at all. */
  lemma {:induction false} RunFollowsPlan(ap: seq<AddrPoint>, client: Client, s: nat, sent: nat)
    requires s <= |ap|
    ensures var plan, run := Plan(ap, s), Run(ap, client, s, sent);
      var answered := Answered(client, plan, sent);
      if answered == |plan| then run.result.Done? && run.requests == RequestsOf(plan)
      else run.result == Failed(ReadFailed) && run.requests == RequestsOf(plan)[..answered + 1]
    decreases |ap| - s
  {
    if s < |ap| {
      var g := GroupAt(ap, s);
      assert Plan(ap, s) == [g] + Plan(ap, g.hi);
      RunFollowsPlan(ap, client, g.hi, sent + 1);
      RunTurn(ap, client, s, sent, g);
    }
  }

  /** v is the entry of point k, cut from the given answer to the group opened at lo. */
  ghost predicate IsOwnEntry(ap: seq<AddrPoint>, client: Client, call: nat, lo: nat, k: nat, v: PointValue)
    requires lo <= k < |ap|
  {
    var g := GroupAt(ap, lo);
    var answer := client(call, g.base, g.quantity);
    k < g.hi && answer.Some? && v == Entry(ap[k], g.base, answer.value)
  }

  /** Over the points from s on, the group opened at lo is the one that call asks for. */
  predicate IsCall(ap: seq<AddrPoint>, s: nat, sent: nat, lo: nat, call: nat)
    requires s < |ap|
    decreases |ap| - s
  {
    if lo == s then call == sent
    else GroupAt(ap, s).hi < |ap| && IsCall(ap, GroupAt(ap, s).hi, sent + 1, lo, call)
  }

  /** The entries of a finished run: those of its first group, then the rest. */
  lemma RunValues(ap: seq<AddrPoint>, client: Client, s: nat, sent: nat, next: nat)
    returns (values: seq<PointValue>, rest: seq<PointValue>)
    requires s < |ap| && Run(ap, client, s, sent).result.Done?
    requires next == GroupAt(ap, s).hi
    ensures |values| == next - s
    ensures forall i :: 0 <= i < next - s ==> IsOwnEntry(ap, client, sent, s, s + i, values[i])
    ensures Run(ap, client, next, sent + 1).result == Done(rest)
    ensures Run(ap, client, s, sent).result == Done(values + rest)
  {
    var g := GroupAt(ap, s);
    RunTurn(ap, client, s, sent, g);
    values := Entries(ap, s, g.hi, g.base, client(sent, g.base, g.quantity).value);
    rest := Run(ap, client, next, sent + 1).result.value;
  }

  /** For any answers, of any length: every point of a finished run has its entry, at its
      place in address order, cut from the answer to its own group, which opens at lo
      and is answered by that call. */
  lemma {:induction false} RunEntry(ap: seq<AddrPoint>, client: Client, s: nat, sent: nat, entries: seq<PointValue>,
                                    k: nat)
    returns (call: nat, lo: nat)
    requires s <= k < |ap| && Run(ap, client, s, sent).result == Done(entries)
    ensures s <= lo <= k && IsCall(ap, s, sent, lo, call)
    ensures k - s < |entries| && IsOwnEntry(ap, client, call, lo, k, entries[k - s])
    decreases |ap| - s
  {
    var next := GroupAt(ap, s).hi;
    var values, rest := RunValues(ap, client, s, sent, next);
    if k < next {
      call, lo := sent, s;
      assert entries[k - s] == values[k - s];
      assert IsOwnEntry(ap, client, sent, s, k, values[k - s]) by {
        assert IsOwnEntry(ap, client, sent, s, s + (k - s), values[k - s]);
      }
    } else {
      call, lo := RunEntry(ap, client, next, sent + 1, rest, k);
      assert entries[k - s] == rest[k - next] by {
        JoinedAt(values, rest, k - s);
      }
    }
  }

  lemma {:induction false} RunLength(ap: seq<AddrPoint>, client: Client, s: nat, sent: nat)
    requires s <= |ap| && Run(ap, client, s, sent).result.Done?
    ensures |Run(ap, client, s, sent).result.value| == |ap| - s
    decreases |ap| - s
  {
    if s < |ap| {
      RunTurn(ap, client, s, sent, GroupAt(ap, s));
      RunLength(ap, client, GroupAt(ap, s).hi, sent + 1);
    }
  }

  // ---- A device with a fixed memory -------------------------------------

  /** 65536 registers of 16 bits. */
  type Memory = uint16 -> uint16

  /** The bytes of quantity registers from base on, high byte first. */
  function MemoryBytes(mem: Memory, base: uint16, quantity: uint16): (bytes: seq<byte>)
    requires base + quantity <= MODULUS
    ensures |bytes| == 2 * quantity
    decreases quantity
  {
    if quantity == 0 then [] else MemoryBytes(mem, base, quantity - 1) + PutWord(mem(base + quantity - 1))
  }

  /** Sections 6.3 and 6.4 of MODBUS V1.1b3: 1 to 125 registers, all of them present. */
  function Device(mem: Memory): Client {
    (sent: nat, base: uint16, quantity: uint16) =>
      if 1 <= quantity <= 125 && base + quantity <= MODULUS then Some(MemoryBytes(mem, base, quantity))
      else None
  }

  lemma {:induction false} MemoryWord(mem: Memory, base: uint16, quantity: uint16, k: nat)
    requires base + quantity <= MODULUS && k < quantity
    ensures WordAt(MemoryBytes(mem, base, quantity), k) == mem(base + k)
    decreases quantity
  {
    if k < quantity - 1 {
      MemoryWord(mem, base, quantity - 1, k);
    }
  }

  /** What the registers of one point hold. */
  function Registers(mem: Memory, p: AddrPoint): (words: seq<uint16>)
    requires p.Fits()
    ensures |words| == p.width
  {
    seq<uint16>(p.width, r requires 0 <= r < p.width => mem(p.addr + r))
  }

  function SingleValue(mem: Memory, p: AddrPoint): PointValue
    requires p.Fits()
  {
    Good(p.name, ValueOf(Registers(mem, p)))
  }

  /** A point of one register reads as its word, a wider one as the slice of its words. */
  lemma SingleValueIs(mem: Memory, p: AddrPoint)
    requires p.Fits()
    ensures p.width == 1 ==> SingleValue(mem, p) == Good(p.name, Uint16(mem(p.addr)))
    ensures p.width == 2 ==> SingleValue(mem, p) == Good(p.name, WordSlice([mem(p.addr), mem(p.addr + 1)]))
    ensures p.width == 4 ==>
      SingleValue(mem, p)
      == Good(p.name, WordSlice([mem(p.addr), mem(p.addr + 1), mem(p.addr + 2), mem(p.addr + 3)]))
  {
    var words := Registers(mem, p);
    assert p.width == 1 ==> words == [mem(p.addr)];
    assert p.width == 2 ==> words == [mem(p.addr), mem(p.addr + 1)];
    assert p.width == 4 ==> words == [mem(p.addr), mem(p.addr + 1), mem(p.addr + 2), mem(p.addr + 3)];
  }

  lemma {:induction false} WordsReadMemory(mem: Memory, p: AddrPoint, base: uint16, quantity: uint16)
    requires p.Fits() && base <= p.addr && p.End() <= base + quantity <= MODULUS
    ensures WordsAt(MemoryBytes(mem, base, quantity), p.addr - base, p.width) == Registers(mem, p)
  {
    var offset := p.addr - base;
    var words := WordsAt(MemoryBytes(mem, base, quantity), offset, p.width);
    forall r | 0 <= r < |words|
      ensures words[r] == Registers(mem, p)[r]
    {
      MemoryWord(mem, base, quantity, offset + r);
      assert base + (offset + r) == p.addr + r;
    }
  }

  lemma {:induction false} EntryReadsMemory(mem: Memory, p: AddrPoint, base: uint16, quantity: uint16)
    requires p.Fits() && base <= p.addr && p.End() <= base + quantity <= MODULUS
    ensures Entry(p, base, MemoryBytes(mem, base, quantity)) == SingleValue(mem, p)
  {
    WordsReadMemory(mem, p, base, quantity);
  }

  function SingleValues(mem: Memory, ap: seq<AddrPoint>): (values: seq<PointValue>)
    requires AllFit(ap)
    ensures |values| == |ap|
    ensures forall k :: 0 <= k < |ap| ==> values[k] == SingleValue(mem, ap[k])
  {
    seq(|ap|, k requires 0 <= k < |ap| => SingleValue(mem, ap[k]))
  }

  lemma {:induction false} EntriesReadMemory(mem: Memory, ap: seq<AddrPoint>, lo: nat, hi: nat, base: uint16,
                                             quantity: uint16)
    requires lo <= hi <= |ap| && AllFit(ap) && base + quantity <= MODULUS
    requires forall k :: lo <= k < hi ==> base <= ap[k].addr && ap[k].End() <= base + quantity
    ensures Entries(ap, lo, hi, base, MemoryBytes(mem, base, quantity)) == SingleValues(mem, ap)[lo..hi]
  {
    var entries := Entries(ap, lo, hi, base, MemoryBytes(mem, base, quantity));
    forall i | 0 <= i < |entries|
      ensures entries[i] == SingleValues(mem, ap)[lo..hi][i]
    {
      EntryReadsMemory(mem, ap[lo + i], base, quantity);
    }
  }

  /** Every planned request is one the device accepts, and the run returns, for each
      point in address order, exactly its own registers. */
  lemma {:induction false} RunReadsMemory(ap: seq<AddrPoint>, mem: Memory, s: nat, sent: nat)
    requires s <= |ap| && Sorted(ap) && AllFit(ap)
    ensures Run(ap, Device(mem), s, sent).result == Done(SingleValues(mem, ap)[s..])
    decreases |ap| - s
  {
    if s < |ap| {
      var g, all := GroupAt(ap, s), SingleValues(mem, ap);
      GroupIsExact(ap, s);
      EntriesReadMemory(mem, ap, s, g.hi, g.base, g.quantity);
      RunReadsMemory(ap, mem, g.hi, sent + 1);
      RunTurn(ap, Device(mem), s, sent, g);
      JoinSlices(all, s, g.hi);
      assert Run(ap, Device(mem), s, sent).result == Done(all[s..g.hi] + all[g.hi..]);
    }
  }

  /** The fast form agrees with the simple one: the batch returns what reading
      every point alone would, one after the other. */
  function OneByOne(ap: seq<AddrPoint>, client: Client): Outcome<seq<PointValue>> {
    if ap == [] then Done([])
    else
      var first := Run([ap[0]], client, 0, 0).result;
      if !first.Done? then first
      else
        var rest := OneByOne(ap[1..], client);
        if rest.Done? then Done(first.value + rest.value) else rest
  }

  lemma {:induction false} OneByOneReadsMemory(ap: seq<AddrPoint>, mem: Memory)
    requires AllFit(ap)
    ensures OneByOne(ap, Device(mem)) == Done(SingleValues(mem, ap))
  {
    if ap != [] {
      OneByOneReadsMemory(ap[1..], mem);
      RunReadsMemory([ap[0]], mem, 0, 0);
      assert SingleValues(mem, [ap[0]])[0..] + SingleValues(mem, ap[1..]) == SingleValues(mem, ap);
    }
  }

  lemma {:induction false} BatchRefinesSingleReads(ap: seq<AddrPoint>, mem: Memory)
    requires Sorted(ap) && AllFit(ap)
    ensures Run(ap, Device(mem), 0, 0).result == OneByOne(ap, Device(mem))
    ensures OneByOne(ap, Device(mem)).Done?
  {
    RunReadsMemory(ap, mem, 0, 0);
    OneByOneReadsMemory(ap, mem);
    assert SingleValues(mem, ap)[0..] == SingleValues(mem, ap);
  }

  /** How many requests a batch sends: no more than any split of the points into groups
      that pass the driver's merge tests would. */
  lemma {:induction false} FewestRequests(ap: seq<AddrPoint>, mem: Memory, other: seq<nat>)
    requires Sorted(ap) && AllFit(ap)
    requires IsSplit(LegalGroups(ap), 0, |ap|, other)
    ensures |Run(ap, Device(mem), 0, 0).requests| <= |other|
  {
    RunReadsMemory(ap, mem, 0, 0);
    RunFollowsPlan(ap, Device(mem), 0, 0);
    PlanIsOptimal(ap, other);
  }

  /** An answer of any length, even or odd: an entry is good exactly when the
      answer holds all the bytes of the point's registers. */
  lemma GoodIffInAnswer(p: AddrPoint, base: uint16, bytes: seq<byte>)
    requires base <= p.addr
    ensures Entry(p, base, bytes).Good? <==> 2 * (p.addr - base + p.width) <= |bytes|
    ensures Entry(p, base, bytes).id == p.name
    ensures Entry(p, base, bytes).Good? ==> forall r :: 0 <= r < p.width ==>
      WordsOf(Entry(p, base, bytes).value)[r] == WordAt(bytes, p.addr - base + r)
  {
  }

  /** The registers inside a good entry. */
  function WordsOf(value: Value): seq<uint16> {
    match value
    case Uint16(w) => [w]
    case WordSlice(ws) => ws
    case _ => []
  }

  /** The entry is the point's own registers, or bad. */
  predicate IsOwnOrBad(mem: Memory, p: AddrPoint, v: PointValue) {
    v == Bad(p.name) || (p.Fits() && v == SingleValue(mem, p))
  }

  lemma {:induction false} EntryIsOwnOrBad(p: AddrPoint, mem: Memory, base: uint16, quantity: uint16)
    requires base <= p.addr && base + quantity <= MODULUS
    ensures IsOwnOrBad(mem, p, Entry(p, base, MemoryBytes(mem, base, quantity)))
  {
    if p.End() <= base + quantity {
      EntryReadsMemory(mem, p, base, quantity);
    }
  }

  lemma OwnEntryNeverFakes(ap: seq<AddrPoint>, mem: Memory, call: nat, lo: nat, k: nat, v: PointValue)
    requires Sorted(ap) && lo <= k < |ap|
    requires IsOwnEntry(ap, Device(mem), call, lo, k, v)
    ensures IsOwnOrBad(mem, ap[k], v)
  {
    var g := GroupAt(ap, lo);
    assert lo < k ==> ap[lo].addr <= ap[k].addr;
    EntryIsOwnOrBad(ap[k], mem, g.base, g.quantity);
  }

  lemma GroupNeverFakes(ap: seq<AddrPoint>, mem: Memory, s: nat, sent: nat, next: nat, values: seq<PointValue>)
    requires Sorted(ap) && s < next <= |ap| && |values| == next - s
    requires forall i :: 0 <= i < next - s ==> IsOwnEntry(ap, Device(mem), sent, s, s + i, values[i])
    ensures forall i :: 0 <= i < |values| ==> IsOwnOrBad(mem, ap[s + i], values[i])
  {
    forall i | 0 <= i < |values|
      ensures IsOwnOrBad(mem, ap[s + i], values[i])
    {
      OwnEntryNeverFakes(ap, mem, sent, s, s + i, values[i]);
    }
  }

  /** The points from s on have these entries, each its own registers or bad. */
  predicate AreOwnOrBad(ap: seq<AddrPoint>, mem: Memory, s: nat, values: seq<PointValue>)
    requires s <= |ap|
  {
    && |values| == |ap| - s
    && forall i :: 0 <= i < |values| ==> IsOwnOrBad(mem, ap[s + i], values[i])
  }

  lemma OwnOrBadJoin(ap: seq<AddrPoint>, mem: Memory, s: nat, next: nat, values: seq<PointValue>, rest: seq<PointValue>)
    requires s <= next <= |ap| && |values| == next - s
    requires forall i :: 0 <= i < |values| ==> IsOwnOrBad(mem, ap[s + i], values[i])
    requires AreOwnOrBad(ap, mem, next, rest)
    ensures AreOwnOrBad(ap, mem, s, values + rest)
  {
    forall i | 0 <= i < |values + rest|
      ensures IsOwnOrBad(mem, ap[s + i], (values + rest)[i])
    {
      if i >= |values| {
        assert IsOwnOrBad(mem, ap[next + (i - |values|)], rest[i - |values|]);
      }
    }
  }

  /** For any sorted points, wrapping ones included, a finished run never fakes a value:
      each entry is its own point's registers, or bad. */
  lemma {:induction false} RunNeverFakes(ap: seq<AddrPoint>, mem: Memory, s: nat, sent: nat)
    requires s <= |ap| && Sorted(ap) && Run(ap, Device(mem), s, sent).result.Done?
    ensures AreOwnOrBad(ap, mem, s, Run(ap, Device(mem), s, sent).result.value)
    decreases |ap| - s
  {
    if s < |ap| {
      var next := GroupAt(ap, s).hi;
      var values, rest := RunValues(ap, Device(mem), s, sent, next);
      RunNeverFakes(ap, mem, next, sent + 1);
      assert AreOwnOrBad(ap, mem, s, values + rest) by {
        GroupNeverFakes(ap, mem, s, sent, next, values);
        OwnOrBadJoin(ap, mem, s, next, values, rest);
      }
    }
  }

  /** A batch comes back complete and all good exactly when every point lies inside
      the register space. */
  lemma {:induction false} AllGoodIffAllFit(ap: seq<AddrPoint>, mem: Memory)
    requires Sorted(ap)
    ensures var run := Run(ap, Device(mem), 0, 0);
      run.result.Done? && (forall v <- run.result.value :: v.Good?) <==> AllFit(ap)
  {
    var run := Run(ap, Device(mem), 0, 0);
    if AllFit(ap) {
      RunReadsMemory(ap, mem, 0, 0);
    } else if run.result.Done? {
      var k :| 0 <= k < |ap| && !ap[k].Fits();
      RunNeverFakes(ap, mem, 0, 0);
      assert IsOwnOrBad(mem, ap[0 + k], run.result.value[k]);
      assert run.result.value[k] in run.result.value;
    }
  }

  // ---- The order of the answer ------------------------------------------

  lemma PermutationKeepsFit(ap: seq<AddrPoint>, sorted: seq<AddrPoint>)
    requires multiset(ap) == multiset(sorted) && AllFit(ap)
    ensures AllFit(sorted)
  {
    forall i | 0 <= i < |sorted|
      ensures sorted[i].Fits()
    {
      assert sorted[i] in multiset(sorted);
      assert sorted[i] in ap;
    }
  }

  lemma PermutedSingleValues(mem: Memory, ap: seq<AddrPoint>, sorted: seq<AddrPoint>)
    requires multiset(ap) == multiset(sorted) && AllFit(ap) && AllFit(sorted)
    ensures multiset(SingleValues(mem, ap)) == multiset(SingleValues(mem, sorted))
  {
    var read := (p: AddrPoint) => if p.Fits() then SingleValue(mem, p) else Bad(p.name);
    assert SingleValues(mem, ap) == Apply(read, ap);
    assert SingleValues(mem, sorted) == Apply(read, sorted);
    ApplyPermutes(read, ap, sorted);
  }

  /** Whatever order the unstable sort leaves equal addresses in, a batch over points
      the device has returns each point's own registers, once per configured point. */
  lemma {:induction false} BatchIsPermutation(ap: seq<AddrPoint>, sorted: seq<AddrPoint>, mem: Memory)
    requires multiset(ap) == multiset(sorted) && Sorted(sorted) && AllFit(ap)
    ensures var result := Run(sorted, Device(mem), 0, 0).result;
      result.Done? && multiset(result.value) == multiset(SingleValues(mem, ap))
  {
    PermutationKeepsFit(ap, sorted);
    RunReadsMemory(sorted, mem, 0, 0);
    PermutedSingleValues(mem, ap, sorted);
    assert SingleValues(mem, sorted)[0..] == SingleValues(mem, sorted);
  }
}
