/** Batched register reading: parse the addresses, sort, plan, issue each request
    and slice its answer back to points (ReadBatchWithFormat for function 03,
    readInputRegistersBatch for function 04). */
module RegisterBatch {
  import opened Dynamic
  import opened Words
  import opened RegisterPlan
  import Formats

  datatype PointConfig = PointConfig(id: string, address: string, format: string)

  datatype PointValue = Good(id: string, value: Value) | Bad(id: string)

  datatype Request = Request(base: uint16, quantity: uint16)

  /** The raw client: what it answers to a request, given how many it has already
      answered; None is an error. */
  type Client = (nat, uint16, uint16) -> Option<seq<byte>>

  /** fmt.Sscanf with "%d" */
  type Scanner = string -> Option<int>

  datatype BatchRun = BatchRun(result: Outcome<seq<PointValue>>, requests: seq<Request>)

  // ---- Addresses --------------------------------------------------------

  function ParseAddress(scan: Scanner, point: string): Option<uint16> {
    if |point| < 2 then None
    else
      match scan(point)
      case None => None
      case Some(n) => Some((n - if point[0] == '4' then 40001 else 1) % MODULUS)
  }

  /** The address of a point parses exactly when it has two characters and starts with a
      number. It is that number less its base, 40001 after a leading '4' and 1 otherwise,
      when that lies in the register space, and that number modulo 65536 in any case. */
  lemma AddressIsPlainIff(scan: Scanner, point: string)
    ensures ParseAddress(scan, point).Some? <==> |point| >= 2 && scan(point).Some?
    ensures ParseAddress(scan, point).Some? ==>
      var plain := scan(point).value - if point[0] == '4' then 40001 else 1;
      && (ParseAddress(scan, point).value == plain <==> 0 <= plain < 65536)
      && (plain - ParseAddress(scan, point).value) % 65536 == 0
  {
  }

  function ParsePoints(scan: Scanner, points: seq<PointConfig>): (r: Outcome<seq<AddrPoint>>)
    ensures !r.Panicked?
    ensures r.Done? ==> |r.value| == |points|
  {
    if points == [] then Done([])
    else
      var addr, pt := ParseAddress(scan, points[0].address), points[0];
      if addr == None then Failed(BadAddress(pt.address))
      else
        var rest := ParsePoints(scan, points[1..]);
        if rest.Done? then Done([AddrPoint(addr.value, pt.id, Formats.RegCount(pt.format))] + rest.value)
        else rest
  }

  predicate Parses(scan: Scanner, address: string) {
    |address| >= 2 && scan(address).Some?
  }

  /** One value of the format takes this many registers. */
  predicate IsWidthOf(format: string, width: int) {
    var upper := Formats.ToUpper(format);
    width == if "FLOAT" <= upper || "LONG" <= upper then 2 else if "DOUBLE" <= upper then 4 else 1
  }

  predicate IsParsed(scan: Scanner, pt: PointConfig, p: AddrPoint) {
    p.name == pt.id && ParseAddress(scan, pt.address) == Some(p.addr) && IsWidthOf(pt.format, p.width)
  }

  predicate IsFirstBad(scan: Scanner, points: seq<PointConfig>, k: nat)
    requires k < |points|
  {
    !Parses(scan, points[k].address) && forall i :: 0 <= i < k ==> Parses(scan, points[i].address)
  }

  /** Parsing succeeds exactly when every address parses, and gives each point its own id,
      address and width, in order; otherwise the first bad address is the error. */
  lemma {:induction false} ParsedIff(scan: Scanner, points: seq<PointConfig>)
    ensures ParsePoints(scan, points).Done? <==> forall i :: 0 <= i < |points| ==> Parses(scan, points[i].address)
    ensures ParsePoints(scan, points).Done? ==>
      forall i :: 0 <= i < |points| ==> IsParsed(scan, points[i], ParsePoints(scan, points).value[i])
    ensures forall k :: 0 <= k < |points| && IsFirstBad(scan, points, k) ==>
      ParsePoints(scan, points) == Failed(BadAddress(points[k].address))
  {
    if points != [] {
      var rest := points[1..];
      ParsedIff(scan, rest);
      AddressIsPlainIff(scan, points[0].address);
      assert points == [points[0]] + rest;
      if Parses(scan, points[0].address) {
        forall k | 0 <= k < |points| && IsFirstBad(scan, points, k)
          ensures ParsePoints(scan, points) == Failed(BadAddress(points[k].address))
        {
          assert forall i :: 0 <= i < k - 1 ==> rest[i] == points[i + 1];
          assert IsFirstBad(scan, rest, k - 1);
        }
      }
    }
  }

  // ---- One answer -------------------------------------------------------

  function ValueOf(words: seq<uint16>): Value {
    if |words| == 1 then Uint16(words[0]) else WordSlice(words)
  }

  /** The loop body over k: the entry one point gets from its group's answer. */
  function Entry(p: AddrPoint, base: uint16, bytes: seq<byte>): PointValue {
    var offset := Wrap(p.addr - base);
    if offset + p.width > |bytes| / 2 then Bad(p.name)
    else Good(p.name, ValueOf(WordsAt(bytes, offset, p.width)))
  }

  function Entries(ap: seq<AddrPoint>, lo: nat, hi: nat, base: uint16, bytes: seq<byte>): (es: seq<PointValue>)
    requires lo <= hi <= |ap|
    ensures |es| == hi - lo
  {
    seq(hi - lo, k requires 0 <= k < hi - lo => Entry(ap[lo + k], base, bytes))
  }

  // ---- A whole run ------------------------------------------------------

  function Run(ap: seq<AddrPoint>, client: Client, s: nat, sent: nat): BatchRun
    requires s <= |ap|
    decreases |ap| - s
  {
    if s == |ap| then BatchRun(Done([]), [])
    else
      var g := GroupAt(ap, s);
      match client(sent, g.base, g.quantity)
      case None => BatchRun(Failed(ReadFailed), [Request(g.base, g.quantity)])
      case Some(bytes) =>
        Continue(Entries(ap, s, g.hi, g.base, bytes), [Request(g.base, g.quantity)],
                 Run(ap, client, g.hi, sent + 1))
  }

  /** A run that goes on after some entries were made and some requests sent. */
  function Continue(values: seq<PointValue>, requests: seq<Request>, rest: BatchRun): BatchRun {
    BatchRun(if rest.result.Done? then Done(values + rest.result.value) else rest.result,
             requests + rest.requests)
  }

  /** One turn of the outer loop. */
  lemma RunTurn(ap: seq<AddrPoint>, client: Client, s: nat, sent: nat, g: Group)
    requires s < |ap| && g == GroupAt(ap, s)
    ensures match client(sent, g.base, g.quantity)
      case None => Run(ap, client, s, sent) == BatchRun(Failed(ReadFailed), [Request(g.base, g.quantity)])
      case Some(bytes) =>
        Run(ap, client, s, sent)
        == Continue(Entries(ap, s, g.hi, g.base, bytes), [Request(g.base, g.quantity)],
                    Run(ap, client, g.hi, sent + 1))
  {
  }

  lemma ContinueFromNothing(rest: BatchRun)
    ensures Continue([], [], rest) == rest
  {
    assert [] + rest.requests == rest.requests;
    if rest.result.Done? {
      assert [] + rest.result.value == rest.result.value;
    }
  }

  lemma ContinueTwice(v: seq<PointValue>, q: seq<Request>, w: seq<PointValue>, p: seq<Request>, rest: BatchRun)
    ensures Continue(v, q, Continue(w, p, rest)) == Continue(v + w, q + p, rest)
  {
    assert q + (p + rest.requests) == (q + p) + rest.requests;
    if rest.result.Done? {
      assert v + (w + rest.result.value) == (v + w) + rest.result.value;
    }
  }

  // ---- The driver's loops -----------------------------------------------

  method ParseAll(scan: Scanner, points: seq<PointConfig>) returns (r: Outcome<seq<AddrPoint>>)
    ensures r == ParsePoints(scan, points)
  {
    var addrPoints: seq<AddrPoint> := [];
    var i := 0;
    assert points[0..] == points;
    assert forall rest :: addrPoints + rest == rest;
    while i < |points|
      invariant 0 <= i <= |points|
      invariant match ParsePoints(scan, points[i..])
                case Done(rest) => ParsePoints(scan, points) == Done(addrPoints + rest)
                case failed => ParsePoints(scan, points) == failed
    {
      ghost var before := addrPoints;
      var pt := points[i];
      assert points[i..][1..] == points[i + 1..];
      match ParseAddress(scan, pt.address) {
        case None => return Failed(BadAddress(pt.address));
        case Some(addr) =>
          var point := AddrPoint(addr, pt.id, Formats.RegCount(pt.format));
          addrPoints := addrPoints + [point];
          assert forall rest :: before + ([point] + rest) == addrPoints + rest;
      }
      i := i + 1;
    }
    assert addrPoints + [] == addrPoints;
    r := Done(addrPoints);
  }

  lemma InsertedIsSorted(sorted: seq<AddrPoint>, p: AddrPoint, j: nat)
    requires Sorted(sorted) && j <= |sorted|
    requires forall k :: 0 <= k < j ==> sorted[k].addr < p.addr
    requires j < |sorted| ==> p.addr <= sorted[j].addr
    ensures Sorted(sorted[..j] + [p] + sorted[j..])
  {
    var r := sorted[..j] + [p] + sorted[j..];
    forall i, k | 0 <= i < k < |r|
      ensures r[i].addr <= r[k].addr
    {
      assert r[i] == if i < j then sorted[i] else if i == j then p else sorted[i - 1];
      assert r[k] == if k < j then sorted[k] else if k == j then p else sorted[k - 1];
    }
  }

  method Insert(sorted: seq<AddrPoint>, p: AddrPoint) returns (r: seq<AddrPoint>)
    requires Sorted(sorted)
    ensures Sorted(r) && multiset(r) == multiset(sorted) + multiset{p}
  {
    var j := 0;
    while j < |sorted| && sorted[j].addr < p.addr
      invariant 0 <= j <= |sorted|
      invariant forall k :: 0 <= k < j ==> sorted[k].addr < p.addr
    {
      j := j + 1;
    }
    r := sorted[..j] + [p] + sorted[j..];
    assert Sorted(r) by {
      InsertedIsSorted(sorted, p, j);
    }
    assert multiset(r) == multiset(sorted) + multiset{p} by {
      assert sorted == sorted[..j] + sorted[j..];
    }
  }

  /** sort.Slice by address. It is not stable, so nothing is promised about the
      order of points with equal addresses. */
  method SortByAddr(ap: seq<AddrPoint>) returns (sorted: seq<AddrPoint>)
    ensures Sorted(sorted) && multiset(sorted) == multiset(ap)
  {
    sorted := [];
    for i := 0 to |ap|
      invariant Sorted(sorted) && multiset(sorted) == multiset(ap[..i])
    {
      sorted := Insert(sorted, ap[i]);
      assert ap[..i + 1] == ap[..i] + [ap[i]];
    }
    assert ap[..|ap|] == ap;
  }

  method ReadEntry(p: AddrPoint, base: uint16, bytes: seq<byte>) returns (entry: PointValue)
    ensures entry == Entry(p, base, bytes)
  {
    var offset := Wrap(p.addr - base);
    if offset + p.width > |bytes| / 2 {
      return Bad(p.name);
    }
    var vals := new uint16[p.width];
    for r := 0 to p.width
      invariant forall k :: 0 <= k < r ==> vals[k] == WordAt(bytes, offset + k)
    {
      vals[r] := WordAt(bytes, offset + r);
    }
    assert vals[..] == WordsAt(bytes, offset, p.width);
    entry := Good(p.name, if p.width == 1 then Uint16(vals[0]) else WordSlice(vals[..]));
  }

  /** The inner loop over j: the last point that joins the group opened at start. */
  method FindGroup(ap: seq<AddrPoint>, start: nat) returns (end: nat, maxAddr: uint16)
    requires start < |ap|
    ensures start <= end < |ap|
    ensures GroupAt(ap, start) == Group(start, end + 1, ap[start].addr, Wrap(maxAddr as int - ap[start].addr + 1))
  {
    end := start;
    maxAddr := ap[start].LastAddr();
    var j := start + 1;
    while j < |ap|
      invariant start < j <= |ap| && end == j - 1
      invariant maxAddr == MaxAddr(ap, start, j)
      invariant GroupEnd(ap, start, j) == GroupEnd(ap, start, start + 1)
    {
      if ap[j].addr <= Wrap(maxAddr + 1) && Wrap(ap[j].addr + ap[j].width - ap[start].addr) < MAX_REGS {
        if ap[j].LastAddr() > maxAddr {
          maxAddr := ap[j].LastAddr();
        }
        end := j;
      } else {
        break;
      }
      j := j + 1;
    }
  }

  /** The inner loop over k: the entries of one answered group. */
  method ReadGroup(ap: seq<AddrPoint>, start: nat, end: nat, baseAddr: uint16, regVals: seq<byte>)
    returns (values: seq<PointValue>)
    requires start <= end < |ap|
    ensures values == Entries(ap, start, end + 1, baseAddr, regVals)
  {
    values := [];
    var k := start;
    while k <= end
      invariant start <= k <= end + 1
      invariant values == Entries(ap, start, k, baseAddr, regVals)
    {
      var entry := ReadEntry(ap[k], baseAddr, regVals);
      values := values + [entry];
      k := k + 1;
    }
  }

  /** One turn of the outer loop: plan a group, request it, slice the answer. */
  method ReadNextGroup(ap: seq<AddrPoint>, i: nat, sent: nat, client: Client)
    returns (values: Option<seq<PointValue>>, request: Request, next: nat)
    requires i < |ap|
    ensures i < next <= |ap|
    ensures Run(ap, client, i, sent)
         == match values
            case None => BatchRun(Failed(ReadFailed), [request])
            case Some(vs) => Continue(vs, [request], Run(ap, client, next, sent + 1))
  {
    var end, maxAddr := FindGroup(ap, i);
    var baseAddr := ap[i].addr;
    var quantity := Wrap(maxAddr as int - baseAddr + 1);
    RunTurn(ap, client, i, sent, Group(i, end + 1, baseAddr, quantity));
    request := Request(baseAddr, quantity);
    next := end + 1;
    var answer := client(sent, baseAddr, quantity);
    if answer == None {
      return None, request, next;
    }
    var entries := ReadGroup(ap, i, end, baseAddr, answer.value);
    values := Some(entries);
  }

  method ReadSorted(ap: seq<AddrPoint>, client: Client) returns (r: Outcome<seq<PointValue>>, requests: seq<Request>)
    ensures BatchRun(r, requests) == Run(ap, client, 0, 0)
  {
    var results: seq<PointValue> := [];
    requests := [];
    var i, sent := 0, 0;
    ghost var whole := Run(ap, client, 0, 0);
    ghost var rest := whole;
    ContinueFromNothing(rest);
    while i < |ap|
      invariant 0 <= i <= |ap|
      invariant rest == Run(ap, client, i, sent)
      invariant whole == Continue(results, requests, rest)
    {
      var values, request, next := ReadNextGroup(ap, i, sent, client);
      if values == None {
        return Failed(ReadFailed), requests + [request];
      }
      rest := Run(ap, client, next, sent + 1);
      ContinueTwice(results, requests, values.value, [request], rest);
      results := results + values.value;
      requests := requests + [request];
      i, sent := next, sent + 1;
    }
    assert rest == BatchRun(Done([]), []);
    assert results + [] == results && requests + [] == requests;
    r := Done(results);
  }

  /** What a batch comes to: the first bad address, or a run over some address-sorted
      arrangement of the points. */
  ghost predicate IsRegisterBatch(points: seq<PointConfig>, scan: Scanner, client: Client, run: BatchRun) {
    match ParsePoints(scan, points)
    case Failed(error) => run == BatchRun(Failed(error), [])
    case Panicked => false
    case Done(ap) =>
      exists sorted :: Sorted(sorted) && multiset(sorted) == multiset(ap) && run == Run(sorted, client, 0, 0)
  }

  /** ReadBatchWithFormat and readInputRegistersBatch, which differ in the client call. */
  method ReadBatchWithFormat(points: seq<PointConfig>, scan: Scanner, client: Client)
    returns (r: Outcome<seq<PointValue>>, requests: seq<Request>)
    ensures IsRegisterBatch(points, scan, client, BatchRun(r, requests))
  {
    var parsed := ParseAll(scan, points);
    if !parsed.Done? {
      return Failed(parsed.error), [];
    }
    var addrPoints := SortByAddr(parsed.value);
    r, requests := ReadSorted(addrPoints, client);
  }
}
