/** ReadBatch: the entry point that routes a function code to one of the batch readers. */
module ModbusBatch {
  import opened Dynamic
  import opened Words
  import Formats
  import opened Permutations
  import opened RegisterPlan
  import opened RegisterBatch
  import opened RegisterReading
  import opened CoilBatch
  import opened CoilReading

  /** The four reads of the raw client. */
  datatype Clients = Clients(holding: Client, input: Client, coils: CoilClient, discrete: CoilClient)

  datatype Route = WordRoute(words: Client) | BitRoute(bits: CoilClient)

  /** The switch on the function code; anything unknown reads holding registers. */
  function RouteOf(code: string, clients: Clients): Route {
    if code == "04" then WordRoute(clients.input)
    else if code == "01" then BitRoute(clients.coils)
    else if code == "02" then BitRoute(clients.discrete)
    else WordRoute(clients.holding)
  }

  /** Addresses stand in for the ids, and no format is passed on. */
  function Plain(points: seq<string>): seq<PointConfig> {
    Apply((pt: string) => PointConfig(pt, pt, ""), points)
  }

  function ToCoil(p: AddrPoint): CoilPoint {
    CoilPoint(p.addr, p.name)
  }

  function ToCoils(ap: seq<AddrPoint>): seq<CoilPoint> {
    Apply((p: AddrPoint) => ToCoil(p), ap)
  }

  /** The same for coils. */
  ghost predicate IsCoilBatch(points: seq<PointConfig>, scan: Scanner, client: CoilClient, run: BatchRun) {
    match ParsePoints(scan, points)
    case Failed(error) => run == BatchRun(Failed(error), [])
    case Panicked => false
    case Done(ap) =>
      exists sorted :: SortedCoils(sorted) && multiset(sorted) == multiset(ToCoils(ap))
                       && run == CoilRun(sorted, client, 0, 0)
  }

  /** readCoilsBatch and readDiscreteInputsBatch */
  method ReadCoilsBatch(points: seq<PointConfig>, scan: Scanner, client: CoilClient)
    returns (r: Outcome<seq<PointValue>>, requests: seq<Request>)
    ensures IsCoilBatch(points, scan, client, BatchRun(r, requests))
  {
    var parsed := ParseAll(scan, points);
    if !parsed.Done? {
      return Failed(parsed.error), [];
    }
    var addrPoints := SortByAddr(parsed.value);
    var coils := ToCoils(addrPoints);
    ApplyPermutes((p: AddrPoint) => ToCoil(p), addrPoints, parsed.value);
    r, requests := ReadCoilsSorted(coils, client);
  }

  ghost predicate IsBatch(code: string, points: seq<string>, scan: Scanner, clients: Clients, run: BatchRun) {
    match RouteOf(code, clients)
    case WordRoute(client) => IsRegisterBatch(Plain(points), scan, client, run)
    case BitRoute(client) => IsCoilBatch(Plain(points), scan, client, run)
  }

  method ReadBatch(code: string, points: seq<string>, scan: Scanner, clients: Clients)
    returns (r: Outcome<seq<PointValue>>, requests: seq<Request>)
    ensures IsBatch(code, points, scan, clients, BatchRun(r, requests))
  {
    var known := if code == "" then "03" else code;
    var pointConfigs := Plain(points);
    match RouteOf(known, clients) {
      case WordRoute(client) => r, requests := ReadBatchWithFormat(pointConfigs, scan, client);
      case BitRoute(client) => r, requests := ReadCoilsBatch(pointConfigs, scan, client);
    }
  }

  // ---- Against devices with fixed contents ------------------------------

  /** The four tables of a Modbus device. */
  datatype DeviceMemory = DeviceMemory(holding: Memory, input: Memory, coils: Coils, discrete: Coils)

  function DeviceClients(m: DeviceMemory): Clients {
    Clients(Device(m.holding), Device(m.input), CoilDevice(m.coils), CoilDevice(m.discrete))
  }

  /** What the device holds at an address, by function code. */
  function Contents(code: string, m: DeviceMemory, addr: uint16): Value {
    if code == "04" then Uint16(m.input(addr))
    else if code == "01" then Bool(m.coils(addr))
    else if code == "02" then Bool(m.discrete(addr))
    else Uint16(m.holding(addr))
  }

  function Expected(code: string, m: DeviceMemory): AddrPoint -> PointValue {
    (p: AddrPoint) => Good(p.name, Contents(code, m, p.addr))
  }

  /** What the device holds under an address as configured; nil if it does not parse. */
  function HeldAt(code: string, m: DeviceMemory, scan: Scanner, address: string): Value {
    match ParseAddress(scan, address)
    case None => Nil
    case Some(addr) => Contents(code, m, addr)
  }

  /** What the points of a batch hold, each under its own address. */
  function OwnContents(code: string, points: seq<string>, scan: Scanner, m: DeviceMemory): seq<PointValue> {
    Apply((pt: string) => Good(pt, HeldAt(code, m, scan, pt)), points)
  }

  predicate AllParse(scan: Scanner, points: seq<string>) {
    forall i :: 0 <= i < |points| ==> Parses(scan, points[i])
  }

  /** The points of a batch: one register or coil each, named by address. */
  lemma {:induction false} PlainPointsParse(scan: Scanner, points: seq<string>)
    ensures ParsePoints(scan, Plain(points)).Done? <==> AllParse(scan, points)
    ensures ParsePoints(scan, Plain(points)).Done? ==>
      forall i :: 0 <= i < |points| ==>
        var p := ParsePoints(scan, Plain(points)).value[i];
        p.name == points[i] && p.width == 1 && ParseAddress(scan, points[i]) == Some(p.addr)
  {
    var plain := Plain(points);
    ParsedIff(scan, plain);
    assert Formats.ToUpper("") == "";
    assert forall i :: 0 <= i < |points| ==> plain[i].address == points[i];
    if ParsePoints(scan, plain).Done? {
      var ap := ParsePoints(scan, plain).value;
      forall i | 0 <= i < |points|
        ensures ap[i].name == points[i] && ap[i].width == 1 && ParseAddress(scan, points[i]) == Some(ap[i].addr)
      {
        assert IsParsed(scan, plain[i], ap[i]);
      }
    }
  }

  /** A bad address ends the whole batch: its error is the first one's, and whatever the
      device is like no request was sent. */
  lemma {:induction false} BadAddressSendsNothing(code: string, points: seq<string>, scan: Scanner, clients: Clients,
                                                  run: BatchRun, k: nat)
    requires IsBatch(code, points, scan, clients, run)
    requires k < |points| && !Parses(scan, points[k]) && forall i :: 0 <= i < k ==> Parses(scan, points[i])
    ensures run == BatchRun(Failed(BadAddress(points[k])), [])
  {
    ParsedIff(scan, Plain(points));
    assert IsFirstBad(scan, Plain(points), k);
  }

  lemma {:induction false} WordBatchReads(code: string, ap: seq<AddrPoint>, sorted: seq<AddrPoint>, mem: Memory,
                                          m: DeviceMemory)
    requires Sorted(sorted) && multiset(sorted) == multiset(ap) && forall p <- ap :: p.width == 1
    requires code != "01" && code != "02" && mem == if code == "04" then m.input else m.holding
    ensures var result := Run(sorted, Device(mem), 0, 0).result;
      result.Done? && multiset(result.value) == multiset(Apply(Expected(code, m), ap))
  {
    WordsAreExpected(mem, ap, Expected(code, m));
    BatchIsPermutation(ap, sorted, mem);
  }

  lemma {:induction false} BitBatchReads(code: string, ap: seq<AddrPoint>, sorted: seq<CoilPoint>, mem: Coils,
                                         m: DeviceMemory)
    requires SortedCoils(sorted) && multiset(sorted) == multiset(ToCoils(ap))
    requires (code == "01" && mem == m.coils) || (code == "02" && mem == m.discrete)
    ensures var result := CoilRun(sorted, CoilDevice(mem), 0, 0).result;
      result.Done? && multiset(result.value) == multiset(Apply(Expected(code, m), ap))
  {
    CoilBatchRefinesSingleReads(sorted, mem);
    ApplyPermutes(ReadCoil(mem), sorted, ToCoils(ap));
    assert Apply(ReadCoil(mem), ToCoils(ap)) == Apply(Expected(code, m), ap);
  }

  /** For any function code and any addresses that parse, a batch over a device that
      answers from memory succeeds and holds each point's own register, coil or input,
      once per point of the request. */
  lemma {:induction false} BatchReadsTheDevice(code: string, points: seq<string>, scan: Scanner, m: DeviceMemory,
                                               run: BatchRun)
    requires IsBatch(code, points, scan, DeviceClients(m), run)
    requires AllParse(scan, points)
    ensures run.result.Done?
    ensures multiset(run.result.value) == multiset(OwnContents(code, points, scan, m))
  {
    PlainPointsParse(scan, points);
    var ap, clients := ParsePoints(scan, Plain(points)).value, DeviceClients(m);
    match RouteOf(code, clients) {
      case WordRoute(client) =>
        var sorted :| Sorted(sorted) && multiset(sorted) == multiset(ap) && run == Run(sorted, client, 0, 0);
        WordBatchReads(code, ap, sorted, if code == "04" then m.input else m.holding, m);
      case BitRoute(client) =>
        var sorted :| SortedCoils(sorted) && multiset(sorted) == multiset(ToCoils(ap))
                      && run == CoilRun(sorted, client, 0, 0);
        BitBatchReads(code, ap, sorted, if code == "01" then m.coils else m.discrete, m);
    }
    assert Apply(Expected(code, m), ap) == OwnContents(code, points, scan, m);
  }

  /** The batch with formats, for points of any id and width: if all lie inside the
      register space it returns exactly their own registers, once per point. */
  lemma {:induction false} FormattedBatchReads(points: seq<PointConfig>, scan: Scanner, mem: Memory, run: BatchRun)
    returns (ap: seq<AddrPoint>)
    requires IsRegisterBatch(points, scan, Device(mem), run)
    requires forall i :: 0 <= i < |points| ==> Parses(scan, points[i].address)
    ensures |ap| == |points| && forall i :: 0 <= i < |points| ==> IsParsed(scan, points[i], ap[i])
    ensures AllFit(ap) ==> run.result.Done? && multiset(run.result.value) == multiset(SingleValues(mem, ap))
  {
    ParsedIff(scan, points);
    ap := ParsePoints(scan, points).value;
    var sorted :| Sorted(sorted) && multiset(sorted) == multiset(ap) && run == Run(sorted, Device(mem), 0, 0);
    if AllFit(ap) {
      BatchIsPermutation(ap, sorted, mem);
    }
  }

  /** The same for coils and discrete inputs, which always lie inside their space. */
  lemma {:induction false} CoilBatchReads(points: seq<PointConfig>, scan: Scanner, mem: Coils, run: BatchRun)
    returns (ap: seq<AddrPoint>)
    requires IsCoilBatch(points, scan, CoilDevice(mem), run)
    requires forall i :: 0 <= i < |points| ==> Parses(scan, points[i].address)
    ensures |ap| == |points| && forall i :: 0 <= i < |points| ==> IsParsed(scan, points[i], ap[i])
    ensures run.result.Done?
    ensures multiset(run.result.value)
         == multiset(Apply((p: AddrPoint) => PointValue.Good(p.name, Bool(mem(p.addr))), ap))
  {
    ParsedIff(scan, points);
    ap := ParsePoints(scan, points).value;
    var sorted :| SortedCoils(sorted) && multiset(sorted) == multiset(ToCoils(ap))
                  && run == CoilRun(sorted, CoilDevice(mem), 0, 0);
    CoilBatchRefinesSingleReads(sorted, mem);
    ApplyPermutes(ReadCoil(mem), sorted, ToCoils(ap));
    assert Apply(ReadCoil(mem), ToCoils(ap)) == Apply((p: AddrPoint) => PointValue.Good(p.name, Bool(mem(p.addr))), ap);
  }

  lemma WordsAreExpected(mem: Memory, ap: seq<AddrPoint>, expected: AddrPoint -> PointValue)
    requires forall p <- ap :: p.width == 1
    requires forall p <- ap :: expected(p) == Good(p.name, Uint16(mem(p.addr)))
    ensures AllFit(ap) && SingleValues(mem, ap) == Apply(expected, ap)
  {
    forall k | 0 <= k < |ap|
      ensures ap[k].Fits() && SingleValue(mem, ap[k]) == expected(ap[k])
    {
      assert ap[k] in ap;
      assert RegisterReading.Registers(mem, ap[k]) == [mem(ap[k].addr)];
    }
    assert SingleValues(mem, ap) == Apply(expected, ap);
  }
}
