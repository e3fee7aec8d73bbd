/** From a Modbus device to sliding windows: the collection loop of one device, all its
    function groups in turn, feeding the rule engine over a whole run. */
module Pipeline {
  import opened Dynamic
  import opened Words
  import opened FormatParser
  import opened Collector
  import opened Gateway
  import opened EdgeRules
  import opened SlidingWindow
  import opened RuleEngine
  import opened RuleRuns
  import opened RegisterBatch
  import opened ModbusBatch
  import Formats

  // ---- Which points can be averaged -------------------------------------

  lemma FloatPrefixIsFloat(name: string)
    requires FormatNamed(name).Some? && Formats.HasPrefix(Formats.ToUpper(name), "FLOAT")
    ensures IsFloat(FormatNamed(name).value)
  {
    assert Formats.ToUpper(name)[0] == "FLOAT"[0];
    assert Formats.UpperChar(name[0]) == 'F';
  }

  /** What decoding can make of one register. */
  lemma OneRegisterDecodes(format: string, w: uint16)
    ensures var upper, v := Formats.ToUpper(format), Decoded(format, Uint16(w));
      if upper == "INT" then v.GoInt?
      else if upper == "UINT" then v.GoUint?
      else if !Formats.HasPrefix(upper, "FLOAT") then v == Uint16(w)
      else if FormatNamed(format).Some? then v.Float32?
      else v.Bytes?
  {
    var upper := Formats.ToUpper(format);
    assert "INT"[0] != "FLOAT"[0] && "UINT"[0] != "FLOAT"[0];
    if upper != "INT" && upper != "UINT" && Formats.HasPrefix(upper, "FLOAT") && FormatNamed(format).Some? {
      FloatPrefixIsFloat(format);
    }
  }

  /** A point read as one register gives the rules a sample exactly when its Type is
      "float" in any case, its Format is not UINT, and its Format, if it starts like a
      Float, is one the parser knows. Every other Type, float64 among them, never does. */
  lemma SampledIff(p: PointMapping, w: uint16, a: Arithmetic)
    ensures Convert(p, Uint16(w), a).Float64? <==>
      && Formats.ToLower(p.kind) == "float"
      && Formats.ToUpper(p.format) != "UINT"
      && (Formats.HasPrefix(Formats.ToUpper(p.format), "FLOAT") ==> FormatNamed(p.format).Some?)
  {
    OneRegisterDecodes(p.format, w);
    assert "INT"[0] != "FLOAT"[0] && "float"[0] != "int"[0];
  }

  /** No format and no Type makes a number of a coil. */
  lemma CoilStaysBool(p: PointMapping, b: bool, a: Arithmetic)
    ensures Convert(p, Bool(b), a) == Bool(b)
  {
  }

  // ---- One collection cycle ---------------------------------------------

  /** A function code and the points read under it. */
  datatype FunctionGroup = FunctionGroup(code: string, points: seq<PointMapping>)

  /** How the read of a group ended: with a batch from the device, or failed after all
      retries. */
  datatype GroupRead = FromDevice(m: DeviceMemory, run: BatchRun) | Unread

  ghost predicate IsReadOf(read: GroupRead, g: FunctionGroup, scan: Scanner) {
    read.FromDevice? ==> IsBatch(g.code, Addresses(g.points), scan, DeviceClients(read.m), read.run)
  }

  function ReadingsOf(read: GroupRead): seq<Reading> {
    if read.FromDevice? && read.run.result.Done? then AllFromDriver(read.run.result.value) else []
  }

  /** What the read of its group leaves under the name of point k. */
  function ValueAfter(group: FunctionGroup, k: nat, read: GroupRead, scan: Scanner, a: Arithmetic): Value
    requires k < |group.points|
  {
    if read.FromDevice? && AllParse(scan, Addresses(group.points)) && IsFirst(group.points, k) then
      Convert(group.points[k], HeldAt(group.code, read.m, scan, group.points[k].address), a)
    else Nil
  }

  lemma GroupValue(all: PointMap, group: FunctionGroup, k: nat, read: GroupRead, scan: Scanner, a: Arithmetic)
    requires k < |group.points| && NamesAreOwn(group.points) && IsReadOf(read, group, scan)
    ensures var m, name := MergeGroup(all, group.points, ReadingsOf(read), a), group.points[k].name;
      name in m && m[name] == ValueAfter(group, k, read, scan, a)
  {
    if read.FromDevice? && AllParse(scan, Addresses(group.points)) {
      ContentsReachTheirNames(all, group.code, group.points, scan, read.m, read.run, a, k);
    } else {
      if read.FromDevice? {
        OneBadAddressLeavesNils(group.code, group.points, scan, DeviceClients(read.m), read.run);
      }
      assert group.points[k] in group.points;
      GroupNames(all, group.points, [], a);
    }
  }

  /** The reads of the first groups of a cycle, one turn of the loop over groups each. */
  ghost predicate AreReads(answers: seq<GroupRead>, functions: seq<FunctionGroup>, scan: Scanner)
    decreases |answers|
  {
    answers != [] ==>
      var n := |answers| - 1;
      && n < |functions| && NamesAreOwn(functions[n].points) && IsReadOf(answers[n], functions[n], scan)
      && AreReads(answers[..n], functions, scan)
  }

  lemma {:induction false} ReadsSoFar(answers: seq<GroupRead>, functions: seq<FunctionGroup>, scan: Scanner, n: nat)
    requires AreReads(answers, functions, scan) && n <= |answers|
    ensures AreReads(answers[..n], functions, scan)
    decreases |answers|
  {
    if n < |answers| {
      ReadsSoFar(answers[..|answers| - 1], functions, scan, n);
      assert answers[..|answers| - 1][..n] == answers[..n];
    } else {
      assert answers[..n] == answers;
    }
  }

  /** allPointValues once these groups are read and merged. */
  function MapAfter(functions: seq<FunctionGroup>, answers: seq<GroupRead>, a: Arithmetic): PointMap
    requires |answers| <= |functions|
  {
    if answers == [] then map[]
    else
      var n := |answers| - 1;
      MergeGroup(MapAfter(functions, answers[..n], a), functions[n].points, ReadingsOf(answers[n]), a)
  }

  /** The place of a name among the points of a group. */
  function PlaceOf(points: seq<PointMapping>, name: string): (k: Option<nat>)
    ensures k.Some? ==> k.value < |points| && points[k.value].name == name
    ensures k == None <==> name !in Names(points)
  {
    if points == [] then None
    else if points[|points| - 1].name == name then Some(|points| - 1)
    else
      assert points == points[..|points| - 1] + [points[|points| - 1]];
      PlaceOf(points[..|points| - 1], name)
  }

  /** What a name stands for after these reads: what the last group that has it left. */
  function LeftUnder(name: string, functions: seq<FunctionGroup>, answers: seq<GroupRead>, scan: Scanner,
                     a: Arithmetic): Option<Value>
    requires |answers| <= |functions|
    decreases |answers|
  {
    if answers == [] then None
    else
      var n := |answers| - 1;
      match PlaceOf(functions[n].points, name)
      case Some(k) => Some(ValueAfter(functions[n], k, answers[n], scan, a))
      case None => LeftUnder(name, functions, answers[..n], scan, a)
  }

  ghost predicate Holds(m: PointMap, name: string, v: Option<Value>) {
    if v.Some? then name in m && m[name] == v.value else name !in m
  }

  /** The map the rules get after any number of groups holds, under every name, what the
      last group with that name read for it, and no other name. */
  lemma {:induction false} TurnValue(name: string, functions: seq<FunctionGroup>, answers: seq<GroupRead>,
                                     scan: Scanner, a: Arithmetic)
    requires |answers| <= |functions| && AreReads(answers, functions, scan)
    ensures Holds(MapAfter(functions, answers, a), name, LeftUnder(name, functions, answers, scan, a))
    decreases |answers|
  {
    if answers != [] {
      var n := |answers| - 1;
      var before, place := MapAfter(functions, answers[..n], a), PlaceOf(functions[n].points, name);
      if place.Some? {
        GroupValue(before, functions[n], place.value, answers[n], scan, a);
      } else {
        TurnValue(name, functions, answers[..n], scan, a);
        GroupNames(before, functions[n].points, ReadingsOf(answers[n]), a);
      }
    }
  }

  // ---- Over a whole run -------------------------------------------------

  /** Each call for the device comes at some turn of one of its collection cycles. */
  ghost predicate Collects(calls: seq<Call>, turns: seq<seq<GroupRead>>, device: string, functions: seq<FunctionGroup>,
                           scan: Scanner, a: Arithmetic) {
    && |turns| == |calls| && (forall t <- turns :: |t| <= |functions|)
    && forall c :: 0 <= c < |calls| && calls[c].ApplyCall? && calls[c].device == device ==>
         AreReads(turns[c], functions, scan) && calls[c].points == MapAfter(functions, turns[c], a)
  }

  /** What a turn offers of a point: what was read for it, if that is a float64, once per
      rule on it. */
  function Sampled(rules: seq<AggregateRule>, f: Floats, device: string, name: string, v: Option<Value>): seq<Event> {
    if v.Some? && v.value.Float64? then
      Offers(device, name, WindowsOn(rules, device, name), (f.number)(v.value.bits64))
    else []
  }

  /** The samples of one point over a run, under the rules of the configuration in force. */
  function Samples(rules: seq<DeviceRules>, calls: seq<Call>, turns: seq<seq<GroupRead>>, f: Floats, a: Arithmetic,
                   device: string, functions: seq<FunctionGroup>, name: string, scan: Scanner): seq<Event>
    requires |turns| == |calls| && forall t <- turns :: |t| <= |functions|
    decreases |calls|
  {
    if calls == [] then []
    else
      var n := |calls| - 1;
      var before := Samples(rules, calls[..n], turns[..n], f, a, device, functions, name, scan);
      if calls[n].ApplyCall? && calls[n].device == device then
        before + Sampled(AllAggregates(InForce(rules, calls[..n])), f, device, name,
                         LeftUnder(name, functions, turns[n], scan, a))
      else before
  }

  lemma {:induction false} OwnEventsAreSamples(rules: seq<DeviceRules>, calls: seq<Call>, turns: seq<seq<GroupRead>>,
                                               f: Floats, a: Arithmetic, device: string, functions: seq<FunctionGroup>,
                                               name: string, scan: Scanner)
    requires Collects(calls, turns, device, functions, scan, a)
    ensures OwnEvents(rules, calls, f, device, name)
         == Samples(rules, calls, turns, f, a, device, functions, name, scan)
    decreases |calls|
  {
    if calls != [] {
      var n := |calls| - 1;
      OwnEventsAreSamples(rules, calls[..n], turns[..n], f, a, device, functions, name, scan);
      if calls[n].ApplyCall? && calls[n].device == device {
        TurnValue(name, functions, turns[n], scan, a);
      }
    }
  }

  /** From device to windows, over any run in which this device's groups are read under
      any function codes, well or badly, other devices are collected too, and rules are
      reloaded: the window of a point holds exactly the last samples of its own contents,
      or, for a name in several groups, of those of the last group read. */
  lemma {:induction false} WindowsHoldContents(rules: seq<DeviceRules>, calls: seq<Call>, turns: seq<seq<GroupRead>>,
                                               eval: Evaluator, f: Floats, a: Arithmetic, device: string,
                                               functions: seq<FunctionGroup>, name: string, scan: Scanner)
    requires Collects(calls, turns, device, functions, scan, a)
    requires forall c <- calls :: c.ApplyCall? && c.device != device ==> Apart(c.device, device)
    ensures var windows, key := After(rules, calls, eval, f).windows, Key(device, name);
      var own := Samples(rules, calls, turns, f, a, device, functions, name, scan);
      && (key in windows <==> own != [])
      && (own != [] ==> windows[key] == Window(LastN(SlidingWindow.Values(own), own[0].window), own[0].window))
  {
    OwnEventsAreSamples(rules, calls, turns, f, a, device, functions, name, scan);
    WindowsAreExact(rules, calls, eval, f, device, name);
  }

  // ---- A full cycle -----------------------------------------------------

  /** No other group has a point of this name. */
  predicate IsOnlyIn(functions: seq<FunctionGroup>, g: nat, name: string) {
    forall h :: 0 <= h < |functions| && h != g ==> name !in Names(functions[h].points)
  }

  lemma {:induction false} NamePlace(points: seq<PointMapping>, k: nat)
    requires k < |points| && NamesAreOwn(points)
    ensures PlaceOf(points, points[k].name) == Some(k)
  {
    assert points[k] in points;
    var place := PlaceOf(points, points[k].name);
    assert place.Some? && points[place.value].name == points[k].name;
  }

  /** Such a name stands for what its own group left, from that group on. */
  lemma {:induction false} OwnIsLeft(functions: seq<FunctionGroup>, g: nat, k: nat, answers: seq<GroupRead>,
                                     scan: Scanner, a: Arithmetic)
    requires g < |functions| && k < |functions[g].points| && NamesAreOwn(functions[g].points)
    requires IsOnlyIn(functions, g, functions[g].points[k].name) && |answers| <= |functions|
    ensures LeftUnder(functions[g].points[k].name, functions, answers, scan, a)
         == if g < |answers| then Some(ValueAfter(functions[g], k, answers[g], scan, a)) else None
    decreases |answers|
  {
    if answers != [] {
      var n := |answers| - 1;
      if n == g {
        NamePlace(functions[g].points, k);
      } else {
        OwnIsLeft(functions, g, k, answers[..n], scan, a);
      }
    }
  }

  /** The maps a full cycle hands to the rules, one after each group. */
  ghost predicate IsCycle(maps: seq<PointMap>, functions: seq<FunctionGroup>, answers: seq<GroupRead>, a: Arithmetic)
    requires |answers| == |functions|
  {
    && |maps| == |functions|
    && forall n :: 0 <= n < |maps| ==> maps[n] == MapAfter(functions, answers[..n + 1], a)
  }

  lemma {:induction false} MapInCycle(functions: seq<FunctionGroup>, g: nat, k: nat, answers: seq<GroupRead>,
                                      scan: Scanner, a: Arithmetic, n: nat)
    requires g < |functions| && k < |functions[g].points| && IsOnlyIn(functions, g, functions[g].points[k].name)
    requires AreReads(answers, functions, scan) && n < |answers| == |functions|
    ensures Holds(MapAfter(functions, answers[..n + 1], a), functions[g].points[k].name,
                  if g <= n then Some(ValueAfter(functions[g], k, answers[g], scan, a)) else None)
  {
    var name, read := functions[g].points[k].name, answers[..n + 1];
    assert Holds(MapAfter(functions, read, a), name, LeftUnder(name, functions, read, scan, a)) by {
      ReadsSoFar(answers, functions, scan, n + 1);
      TurnValue(name, functions, read, scan, a);
    }
    assert NamesAreOwn(functions[g].points) by {
      ReadsSoFar(answers, functions, scan, g + 1);
      assert AreReads(answers[..g + 1], functions, scan);
    }
    OwnIsLeft(functions, g, k, read, scan, a);
  }

  lemma {:induction false} MapsInCycle(functions: seq<FunctionGroup>, g: nat, k: nat, answers: seq<GroupRead>,
                                       scan: Scanner, a: Arithmetic, maps: seq<PointMap>)
    requires g < |functions| && k < |functions[g].points| && IsOnlyIn(functions, g, functions[g].points[k].name)
    requires AreReads(answers, functions, scan) && |answers| == |functions| && IsCycle(maps, functions, answers, a)
    ensures IsFrom(maps, g, functions[g].points[k].name, ValueAfter(functions[g], k, answers[g], scan, a))
  {
    var name, v := functions[g].points[k].name, ValueAfter(functions[g], k, answers[g], scan, a);
    forall n | 0 <= n < |maps|
      ensures if n < g then IsQuiet(maps[n], name) else name in maps[n] && maps[n][name] == v
    {
      MapInCycle(functions, g, k, answers, scan, a, n);
    }
  }

  /** A full cycle at any point of a run: a point of group g alone, if what was read for
      it is a float64, enters its window once for each group from g on, each time once
      per rule on it; otherwise not at all. */
  lemma {:induction false} CycleSamples(rules: seq<DeviceRules>, calls: seq<Call>, functions: seq<FunctionGroup>,
                                        g: nat, k: nat, answers: seq<GroupRead>, maps: seq<PointMap>, scan: Scanner,
                                        f: Floats, a: Arithmetic, device: string)
    requires g < |functions| && k < |functions[g].points| && IsOnlyIn(functions, g, functions[g].points[k].name)
    requires AreReads(answers, functions, scan) && |answers| == |functions| && IsCycle(maps, functions, answers, a)
    ensures var name, v := functions[g].points[k].name, ValueAfter(functions[g], k, answers[g], scan, a);
      OwnEvents(rules, calls + Cycle(device, maps), f, device, name)
      == OwnEvents(rules, calls, f, device, name)
       + TimesOver(AllAggregates(InForce(rules, calls)), device, name, v, f, |functions| - g)
  {
    var name, v := functions[g].points[k].name, ValueAfter(functions[g], k, answers[g], scan, a);
    assert IsFrom(maps, g, name, v) by {
      MapsInCycle(functions, g, k, answers, scan, a, maps);
    }
    CycleOffersAgain(rules, calls, f, device, name, v, maps, g, |functions| - g);
  }

  // ---- Points that are never averaged -----------------------------------

  /** The point's Type is not "float", or it is a coil or discrete input, or it is not the
      first on its address. */
  predicate IsUnsampled(group: FunctionGroup, k: nat)
    requires k < |group.points|
  {
    || Formats.ToLower(group.points[k].kind) != "float"
    || group.code == "01" || group.code == "02"
    || !IsFirst(group.points, k)
  }

  predicate AreUnsampled(functions: seq<FunctionGroup>, name: string) {
    forall h, k :: 0 <= h < |functions| && 0 <= k < |functions[h].points| ==>
      functions[h].points[k].name == name ==> IsUnsampled(functions[h], k)
  }

  lemma NotAFloat(group: FunctionGroup, k: nat, read: GroupRead, scan: Scanner, a: Arithmetic)
    requires k < |group.points| && IsUnsampled(group, k)
    ensures !ValueAfter(group, k, read, scan, a).Float64?
  {
    if read.FromDevice? && AllParse(scan, Addresses(group.points)) && IsFirst(group.points, k) {
      assert Parses(scan, Addresses(group.points)[k]);
      match HeldAt(group.code, read.m, scan, group.points[k].address)
      case Uint16(w) => SampledIff(group.points[k], w, a);
      case Bool(b) => CoilStaysBool(group.points[k], b, a);
    }
  }

  lemma {:induction false} NothingSampled(name: string, functions: seq<FunctionGroup>, answers: seq<GroupRead>,
                                          scan: Scanner, a: Arithmetic)
    requires |answers| <= |functions|
    requires AreUnsampled(functions, name)
    ensures var v := LeftUnder(name, functions, answers, scan, a); v.Some? ==> !v.value.Float64?
    decreases |answers|
  {
    if answers != [] {
      var n := |answers| - 1;
      var place := PlaceOf(functions[n].points, name);
      if place.Some? {
        NotAFloat(functions[n], place.value, answers[n], scan, a);
      } else {
        NothingSampled(name, functions, answers[..n], scan, a);
      }
    }
  }

  /** A name under which there are only such points never enters a window on this path. */
  lemma {:induction false} NeverSampled(rules: seq<DeviceRules>, calls: seq<Call>, turns: seq<seq<GroupRead>>, f: Floats,
                                        a: Arithmetic, device: string, functions: seq<FunctionGroup>, name: string,
                                        scan: Scanner)
    requires |turns| == |calls| && (forall t <- turns :: |t| <= |functions|)
    requires AreUnsampled(functions, name)
    ensures Samples(rules, calls, turns, f, a, device, functions, name, scan) == []
    decreases |calls|
  {
    if calls != [] {
      var n := |calls| - 1;
      NeverSampled(rules, calls[..n], turns[..n], f, a, device, functions, name, scan);
      NothingSampled(name, functions, turns[n], scan, a);
    }
  }
}
