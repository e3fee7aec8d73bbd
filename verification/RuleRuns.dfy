/** The rule engine over whole runs: any devices, any point maps, any reloads. */
module RuleRuns {
  import opened Dynamic
  import opened Words
  import opened EdgeRules
  import opened SlidingWindow
  import opened RuleEngine

  datatype Call = ApplyCall(device: string, points: PointMap) | ReloadCall(groups: seq<DeviceRules>)

  /** The fields of a RuleEngine, its buffers as values. */
  datatype Engine = Engine(agg: seq<AggregateRule>, alarm: seq<AlarmRule>, windows: Windows, alarms: seq<AlarmInfo>)

  function Started(groups: seq<DeviceRules>): Engine {
    Engine(AllAggregates(groups), AllAlarms(groups), map[], [])
  }

  function Step(e: Engine, call: Call, eval: Evaluator, f: Floats): Engine {
    match call
    case ApplyCall(device, points) =>
      e.(windows := FeedAll(e.windows, EventsOf(e.agg, device, points, f)),
         alarms := AlarmsFrom(e.alarm, device, points, eval, f))
    case ReloadCall(groups) => e.(agg := AllAggregates(groups), alarm := AllAlarms(groups))
  }

  function After(groups: seq<DeviceRules>, calls: seq<Call>, eval: Evaluator, f: Floats): Engine {
    if calls == [] then Started(groups)
    else Step(After(groups, calls[..|calls| - 1], eval, f), calls[|calls| - 1], eval, f)
  }

  /** The configuration in force after the calls. */
  function InForce(groups: seq<DeviceRules>, calls: seq<Call>): seq<DeviceRules> {
    if calls == [] then groups
    else if calls[|calls| - 1].ReloadCall? then calls[|calls| - 1].groups
    else InForce(groups, calls[..|calls| - 1])
  }

  // ---- Keys -------------------------------------------------------------

  /** Neither id continues the other after a dot. */
  predicate Apart(d: string, e: string) {
    !(d + "." <= e) && !(e + "." <= d)
  }

  lemma SharedKeyIsContinuation(d: string, p: string, e: string, q: string)
    requires Key(d, p) == Key(e, q) && |d| < |e|
    ensures d + "." <= e
  {
    var k := Key(d, p);
    assert k == d + "." + p && k == e + "." + q;
    assert e == k[..|e|];
    assert d + "." == k[..|d| + 1];
  }

  lemma SharedKeySameLength(d: string, p: string, e: string, q: string)
    requires Key(d, p) == Key(e, q) && |d| == |e|
    ensures d == e
  {
    assert d == Key(d, p)[..|d|];
    assert e == Key(e, q)[..|e|];
  }

  lemma SharedKeySameDevice(d: string, p: string, q: string)
    requires Key(d, p) == Key(d, q)
    ensures p == q
  {
    assert p == Key(d, p)[|d| + 1..];
    assert q == Key(d, q)[|d| + 1..];
  }

  /** Two devices can meet in one buffer exactly when one id continues the other
      after a dot; ids without dots never do. */
  lemma KeysCollideIff(d: string, e: string)
    requires d != e
    ensures (exists p, q :: Key(d, p) == Key(e, q)) <==> !Apart(d, e)
  {
    forall p, q | Key(d, p) == Key(e, q)
      ensures !Apart(d, e)
    {
      if |d| < |e| {
        SharedKeyIsContinuation(d, p, e, q);
      } else if |e| < |d| {
        SharedKeyIsContinuation(e, q, d, p);
      } else {
        SharedKeySameLength(d, p, e, q);
      }
    }
    if d + "." <= e {
      assert Key(d, e[|d| + 1..] + "." + "") == Key(e, "");
    } else if e + "." <= d {
      assert Key(e, d[|e| + 1..] + "." + "") == Key(d, "");
    }
  }

  lemma ContinuationHasDot(d: string, e: string)
    requires d + "." <= e
    ensures '.' in e
  {
    assert (d + ".")[|d|] == e[|d|];
  }

  lemma NoDotIsApart(d: string, e: string)
    requires '.' !in d && '.' !in e
    ensures Apart(d, e)
  {
    if d + "." <= e {
      ContinuationHasDot(d, e);
    } else if e + "." <= d {
      ContinuationHasDot(e, d);
    }
  }

  // ---- Windows over a run -----------------------------------------------

  /** Every sample offered during the run, in order. */
  function EventLog(groups: seq<DeviceRules>, calls: seq<Call>, f: Floats): seq<Event> {
    if calls == [] then []
    else
      var before, last := calls[..|calls| - 1], calls[|calls| - 1];
      EventLog(groups, before, f)
      + if last.ApplyCall? then EventsOf(AllAggregates(InForce(groups, before)), last.device, last.points, f) else []
  }

  lemma {:induction false} RunFeedsTheLog(groups: seq<DeviceRules>, calls: seq<Call>, eval: Evaluator, f: Floats)
    ensures var e := After(groups, calls, eval, f);
      && e.windows == FeedAll(map[], EventLog(groups, calls, f))
      && e.agg == AllAggregates(InForce(groups, calls))
      && e.alarm == AllAlarms(InForce(groups, calls))
  {
    if calls != [] {
      var before, last := calls[..|calls| - 1], calls[|calls| - 1];
      RunFeedsTheLog(groups, before, eval, f);
      if last.ApplyCall? {
        FeedAllJoin(map[], EventLog(groups, before, f),
                    EventsOf(AllAggregates(InForce(groups, before)), last.device, last.points, f));
      } else {
        assert EventLog(groups, before, f) + [] == EventLog(groups, before, f);
      }
    }
  }

  /** The Windows of the rules on one point, in rule order. */
  function WindowsOn(rules: seq<AggregateRule>, device: string, point: string): seq<int> {
    if rules == [] then []
    else
      var before, rule := WindowsOn(rules[..|rules| - 1], device, point), rules[|rules| - 1];
      if rule.device == device && rule.point == point then before + [rule.window] else before
  }

  /** The Windows of a group's rules on a point, whatever device they carry. */
  function PointWindows(rules: seq<AggregateRule>, point: string): seq<int> {
    if rules == [] then []
    else
      var before, rule := PointWindows(rules[..|rules| - 1], point), rules[|rules| - 1];
      if rule.point == point then before + [rule.window] else before
  }

  /** The same over a configuration: the device's own groups in order. */
  function DeviceWindows(groups: seq<DeviceRules>, device: string, point: string): seq<int> {
    if groups == [] then []
    else
      var group := groups[|groups| - 1];
      DeviceWindows(groups[..|groups| - 1], device, point)
      + if group.device == device then PointWindows(group.aggregate, point) else []
  }

  lemma {:induction false} WindowsOnJoin(a: seq<AggregateRule>, b: seq<AggregateRule>, device: string, point: string)
    ensures WindowsOn(a + b, device, point) == WindowsOn(a, device, point) + WindowsOn(b, device, point)
  {
    if b == [] {
      assert a + b == a;
    } else {
      assert (a + b)[..|a + b| - 1] == a + b[..|b| - 1];
      WindowsOnJoin(a, b[..|b| - 1], device, point);
    }
  }

  lemma {:induction false} OneGroupWindows(owner: string, rules: seq<AggregateRule>, device: string, point: string)
    ensures WindowsOn(AggregatesOf(DeviceRules(owner, rules, [])), device, point)
         == if owner == device then PointWindows(rules, point) else []
  {
    if rules != [] {
      var before := rules[..|rules| - 1];
      OneGroupWindows(owner, before, device, point);
      assert AggregatesOf(DeviceRules(owner, rules, []))[..|rules| - 1] == AggregatesOf(DeviceRules(owner, before, []));
    }
  }

  /** The rules on a device's point are those its own groups configure for the point, in
      order, whatever device the rules themselves carry. */
  lemma {:induction false} FlattenedWindowsAreGrouped(groups: seq<DeviceRules>, device: string, point: string)
    ensures WindowsOn(AllAggregates(groups), device, point) == DeviceWindows(groups, device, point)
  {
    if groups != [] {
      var before, group := groups[..|groups| - 1], groups[|groups| - 1];
      FlattenedWindowsAreGrouped(before, device, point);
      WindowsOnJoin(AllAggregates(before), AggregatesOf(group), device, point);
      OneGroupWindows(group.device, group.aggregate, device, point);
      assert AggregatesOf(group) == AggregatesOf(DeviceRules(group.device, group.aggregate, []));
    }
  }

  /** One sample of a point, offered once per rule on it. */
  function Offers(device: string, point: string, windows: seq<int>, v: real): seq<Event> {
    if windows == [] then []
    else Offers(device, point, windows[..|windows| - 1], v) + [Event(Key(device, point), windows[|windows| - 1], v)]
  }

  /** What one map of its device offers of a point: its value, if that is a float64, once
      per rule on it. */
  function Offered(rules: seq<AggregateRule>, f: Floats, device: string, points: PointMap, point: string): seq<Event> {
    if point in points && points[point].Float64? then
      Offers(device, point, WindowsOn(rules, device, point), (f.number)(points[point].bits64))
    else []
  }

  /** The samples of one point over a run: for each call on its device what the map
      offers, under the rules of the configuration in force. */
  function OwnEvents(groups: seq<DeviceRules>, calls: seq<Call>, f: Floats, device: string, point: string): seq<Event> {
    if calls == [] then []
    else
      var before, last := calls[..|calls| - 1], calls[|calls| - 1];
      var own := OwnEvents(groups, before, f, device, point);
      if last.ApplyCall? && last.device == device then
        own + Offered(AllAggregates(InForce(groups, before)), f, device, last.points, point)
      else own
  }

  lemma {:induction false} OneCallOwnEvents(rules: seq<AggregateRule>, f: Floats, device: string, points: PointMap,
                                            point: string)
    ensures For(EventsOf(rules, device, points, f), Key(device, point))
         == Offered(rules, f, device, points, point)
  {
    if rules != [] {
      var before, rule := rules[..|rules| - 1], rules[|rules| - 1];
      OneCallOwnEvents(before, f, device, points, point);
      var made := SampleFor(rule, device, points, f);
      if made.Some? {
        ForJoin(EventsOf(before, device, points, f), [made.value], Key(device, point));
        if made.value.key == Key(device, point) {
          SharedKeySameDevice(device, rule.point, point);
        }
      }
      if rule.device == device && rule.point == point {
        var windows := WindowsOn(before, device, point);
        assert (windows + [rule.window])[..|windows|] == windows;
      }
    }
  }

  lemma {:induction false} OtherCallHasNone(rules: seq<AggregateRule>, f: Floats, other: string, points: PointMap,
                                            device: string, point: string)
    requires other != device && Apart(other, device)
    ensures For(EventsOf(rules, other, points, f), Key(device, point)) == []
  {
    if rules != [] {
      var before, rule := rules[..|rules| - 1], rules[|rules| - 1];
      OtherCallHasNone(before, f, other, points, device, point);
      var made := SampleFor(rule, other, points, f);
      if made.Some? {
        ForJoin(EventsOf(before, other, points, f), [made.value], Key(device, point));
        KeysCollideIff(other, device);
      }
    }
  }

  lemma {:induction false} LogHoldsOwnEvents(groups: seq<DeviceRules>, calls: seq<Call>, f: Floats, device: string,
                                             point: string)
    requires forall c <- calls :: c.ApplyCall? && c.device != device ==> Apart(c.device, device)
    ensures For(EventLog(groups, calls, f), Key(device, point)) == OwnEvents(groups, calls, f, device, point)
  {
    if calls != [] {
      var before, last := calls[..|calls| - 1], calls[|calls| - 1];
      LogHoldsOwnEvents(groups, before, f, device, point);
      if last.ApplyCall? {
        var rules := AllAggregates(InForce(groups, before));
        ForJoin(EventLog(groups, before, f), EventsOf(rules, last.device, last.points, f), Key(device, point));
        if last.device == device {
          OneCallOwnEvents(rules, f, device, last.points, point);
        } else {
          assert last in calls;
          OtherCallHasNone(rules, f, last.device, last.points, device, point);
        }
      } else {
        assert EventLog(groups, before, f) + [] == EventLog(groups, before, f);
      }
    }
  }

  /** After any run, hot reloads included, the buffer of (device, point) holds exactly
      the last max(0, size) samples of that point and of no other, and size is the
      Window of the rule that made the buffer. */
  lemma {:induction false} WindowsAreExact(groups: seq<DeviceRules>, calls: seq<Call>, eval: Evaluator, f: Floats,
                                           device: string, point: string)
    requires forall c <- calls :: c.ApplyCall? && c.device != device ==> Apart(c.device, device)
    ensures var windows := After(groups, calls, eval, f).windows;
      var own := OwnEvents(groups, calls, f, device, point);
      && (Key(device, point) in windows <==> own != [])
      && (own != [] ==>
            windows[Key(device, point)] == Window(LastN(Values(own), own[0].window), own[0].window))
  {
    RunFeedsTheLog(groups, calls, eval, f);
    LogHoldsOwnEvents(groups, calls, f, device, point);
    BuffersHoldTheLast(EventLog(groups, calls, f), Key(device, point));
  }

  /** In a deployment whose device ids have no dots, windows never mix. */
  lemma {:induction false} WindowsAreExactWithoutDots(groups: seq<DeviceRules>, calls: seq<Call>, eval: Evaluator,
                                                      f: Floats, device: string, point: string)
    requires '.' !in device && forall c <- calls :: c.ApplyCall? ==> '.' !in c.device
    ensures var windows := After(groups, calls, eval, f).windows;
      var own := OwnEvents(groups, calls, f, device, point);
      && (Key(device, point) in windows <==> own != [])
      && (own != [] ==>
            windows[Key(device, point)] == Window(LastN(Values(own), own[0].window), own[0].window))
  {
    forall c | c in calls && c.ApplyCall? && c.device != device
      ensures Apart(c.device, device)
    {
      NoDotIsApart(c.device, device);
    }
    WindowsAreExact(groups, calls, eval, f, device, point);
  }

  lemma CallsJoin(first: seq<Call>, more: seq<Call>)
    requires more != []
    ensures (first + more)[..|first + more| - 1] == first + more[..|more| - 1]
    ensures first + more != [] && (first + more)[|first + more| - 1] == more[|more| - 1]
  {
  }

  lemma {:induction false} InForceJoin(groups: seq<DeviceRules>, first: seq<Call>, more: seq<Call>)
    ensures InForce(groups, first + more) == InForce(InForce(groups, first), more)
    decreases |more|
  {
    if more == [] {
      assert first + more == first;
    } else {
      CallsJoin(first, more);
      InForceJoin(groups, first, more[..|more| - 1]);
    }
  }

  /** Runs compose: later calls start from the configuration the earlier ones left. */
  lemma {:induction false} OwnEventsJoin(groups: seq<DeviceRules>, first: seq<Call>, more: seq<Call>, f: Floats,
                                         device: string, point: string)
    ensures OwnEvents(groups, first + more, f, device, point)
         == OwnEvents(groups, first, f, device, point) + OwnEvents(InForce(groups, first), more, f, device, point)
    decreases |more|
  {
    if more == [] {
      assert first + more == first;
    } else {
      CallsJoin(first, more);
      InForceJoin(groups, first, more[..|more| - 1]);
      OwnEventsJoin(groups, first, more[..|more| - 1], f, device, point);
    }
  }

  function Repeated(block: seq<Event>, times: nat): seq<Event> {
    if times == 0 then [] else Repeated(block, times - 1) + block
  }

  /** The point has no sample in this map. */
  predicate IsQuiet(points: PointMap, point: string) {
    point !in points || !points[point].Float64?
  }

  /** The point has no sample in the first g maps and this value in all later ones. */
  ghost predicate IsFrom(maps: seq<PointMap>, g: nat, point: string, v: Value) {
    forall n :: 0 <= n < |maps| ==>
      if n < g then IsQuiet(maps[n], point) else point in maps[n] && maps[n][point] == v
  }

  /** A value offered this many times over; only a float64 is a sample. */
  function TimesOver(rules: seq<AggregateRule>, device: string, name: string, v: Value, f: Floats,
                     times: nat): seq<Event> {
    if v.Float64? then Repeated(Offers(device, name, WindowsOn(rules, device, name), (f.number)(v.bits64)), times)
    else []
  }

  lemma {:induction false} CycleRepeats(groups: seq<DeviceRules>, f: Floats, device: string, point: string,
                                        maps: seq<PointMap>, g: nat, times: nat, block: seq<Event>)
    requires g + times == |maps|
    requires forall n :: 0 <= n < |maps| ==>
      Offered(AllAggregates(groups), f, device, maps[n], point) == if n < g then [] else block
    ensures OwnEvents(groups, Cycle(device, maps), f, device, point) == Repeated(block, times)
    decreases |maps|
  {
    if maps != [] {
      var before := maps[..|maps| - 1];
      CycleGrows(groups, f, device, point, maps);
      if times > 0 {
        CycleRepeats(groups, f, device, point, before, g, times - 1, block);
      } else {
        CycleRepeats(groups, f, device, point, before, g - 1, 0, block);
      }
    }
  }

  /** Calling ApplyRules once per function group, as the collection loop does, offers a
      point again with every later group. Anywhere in a run, a sample first present after
      g quiet groups enters its window as often as there are groups from then on, each
      time once per rule. */
  lemma {:induction false} CycleOffersAgain(groups: seq<DeviceRules>, calls: seq<Call>, f: Floats, device: string,
                                            point: string, v: Value, maps: seq<PointMap>, g: nat, times: nat)
    requires g + times == |maps| && IsFrom(maps, g, point, v)
    ensures OwnEvents(groups, calls + Cycle(device, maps), f, device, point)
         == OwnEvents(groups, calls, f, device, point)
          + TimesOver(AllAggregates(InForce(groups, calls)), device, point, v, f, times)
  {
    var rules := InForce(groups, calls);
    OwnEventsJoin(groups, calls, Cycle(device, maps), f, device, point);
    if v.Float64? {
      var block := Offers(device, point, WindowsOn(AllAggregates(rules), device, point), (f.number)(v.bits64));
      CycleRepeats(rules, f, device, point, maps, g, times, block);
    } else {
      CycleRepeats(rules, f, device, point, maps, |maps|, 0, []);
    }
  }

  /** What the last group of the cycle adds. */
  lemma {:induction false} CycleGrows(groups: seq<DeviceRules>, f: Floats, device: string, point: string,
                                      maps: seq<PointMap>)
    requires maps != []
    ensures OwnEvents(groups, Cycle(device, maps), f, device, point)
         == OwnEvents(groups, Cycle(device, maps[..|maps| - 1]), f, device, point)
          + Offered(AllAggregates(groups), f, device, maps[|maps| - 1], point)
  {
    var before := maps[..|maps| - 1];
    assert Cycle(device, maps)[..|maps| - 1] == Cycle(device, before);
    NoReload(groups, device, before);
  }

  /** The calls of one collection cycle: the point map as it stands after each group. */
  function Cycle(device: string, maps: seq<PointMap>): (calls: seq<Call>)
    ensures |calls| == |maps|
  {
    if maps == [] then [] else Cycle(device, maps[..|maps| - 1]) + [ApplyCall(device, maps[|maps| - 1])]
  }

  lemma {:induction false} NoReload(groups: seq<DeviceRules>, device: string, maps: seq<PointMap>)
    ensures InForce(groups, Cycle(device, maps)) == groups
    decreases |maps|
  {
    if maps != [] {
      NoReload(groups, device, maps[..|maps| - 1]);
      assert Cycle(device, maps)[..|maps| - 1] == Cycle(device, maps[..|maps| - 1]);
    }
  }

  // ---- Alarms over a run ------------------------------------------------

  /** What a condition sees: every number of the Go types float32, int, int32, int64,
      uint16, uint32 and uint64 as the float64 of that number, and anything else, int16
      and uint included, as it is. */
  lemma ConditionSees(v: Value, f: Floats)
    ensures v.Float32? ==> Numeric(v, f) == Float64((f.widen)(v.bits32))
    ensures v.GoInt? ==> Numeric(v, f) == Float64((f.ofInt)(v.i))
    ensures v.Int32? ==> Numeric(v, f) == Float64((f.ofInt)(v.i32))
    ensures v.Int64? ==> Numeric(v, f) == Float64((f.ofInt)(v.i64))
    ensures v.Uint16? ==> Numeric(v, f) == Float64((f.ofInt)(v.u16))
    ensures v.Uint32? ==> Numeric(v, f) == Float64((f.ofInt)(v.u32))
    ensures v.Uint64? ==> Numeric(v, f) == Float64((f.ofInt)(v.u64))
    ensures v.Int16? || v.GoUint? || v.Float64? || v.Nil? || v.Bool? || v.Str? ==> Numeric(v, f) == v
    ensures v.Bytes? || v.WordSlice? || v.BoolSlice? || v.ObjectID? || v.Other? ==> Numeric(v, f) == v
  {
  }

  /** The alarms of a list of rules, whatever device they name. */
  function GroupAlarms(rules: seq<AlarmRule>, points: PointMap, eval: Evaluator, f: Floats): seq<AlarmInfo> {
    if rules == [] then []
    else
      var before, rule := GroupAlarms(rules[..|rules| - 1], points, eval, f), rules[|rules| - 1];
      if rule.point in points && eval(rule.condition, Numeric(points[rule.point], f)) == Some(Bool(true)) then
        before + [AlarmInfo(rule.point, rule.level, rule.message)]
      else before
  }

  /** The alarms of one device: its groups in configuration order, each rule in order. */
  function DeviceAlarms(groups: seq<DeviceRules>, device: string, points: PointMap, eval: Evaluator,
                        f: Floats): seq<AlarmInfo> {
    if groups == [] then []
    else
      var group := groups[|groups| - 1];
      DeviceAlarms(groups[..|groups| - 1], device, points, eval, f)
      + if group.device == device then GroupAlarms(group.alarm, points, eval, f) else []
  }

  lemma {:induction false} AlarmsFromJoin(a: seq<AlarmRule>, b: seq<AlarmRule>, device: string, points: PointMap,
                                          eval: Evaluator, f: Floats)
    ensures AlarmsFrom(a + b, device, points, eval, f)
         == AlarmsFrom(a, device, points, eval, f) + AlarmsFrom(b, device, points, eval, f)
  {
    if b == [] {
      assert a + b == a;
    } else {
      assert (a + b)[..|a + b| - 1] == a + b[..|b| - 1];
      AlarmsFromJoin(a, b[..|b| - 1], device, points, eval, f);
    }
  }

  lemma {:induction false} OneGroupAlarms(owner: string, rules: seq<AlarmRule>, device: string, points: PointMap,
                                          eval: Evaluator, f: Floats)
    ensures AlarmsFrom(AlarmsOf(DeviceRules(owner, [], rules)), device, points, eval, f)
         == if owner == device then GroupAlarms(rules, points, eval, f) else []
  {
    if rules != [] {
      var before := rules[..|rules| - 1];
      OneGroupAlarms(owner, before, device, points, eval, f);
      assert AlarmsOf(DeviceRules(owner, [], rules))[..|rules| - 1] == AlarmsOf(DeviceRules(owner, [], before));
    }
  }

  /** Flattening the groups and filtering by device loses, adds and reorders nothing. */
  lemma {:induction false} FlattenedAlarmsAreGrouped(groups: seq<DeviceRules>, device: string, points: PointMap,
                                                     eval: Evaluator, f: Floats)
    ensures AlarmsFrom(AllAlarms(groups), device, points, eval, f) == DeviceAlarms(groups, device, points, eval, f)
  {
    if groups != [] {
      var before, group := groups[..|groups| - 1], groups[|groups| - 1];
      FlattenedAlarmsAreGrouped(before, device, points, eval, f);
      AlarmsFromJoin(AllAlarms(before), AlarmsOf(group), device, points, eval, f);
      OneGroupAlarms(group.device, group.alarm, device, points, eval, f);
      assert AlarmsOf(group) == AlarmsOf(DeviceRules(group.device, [], group.alarm));
    }
  }

  /** The last ApplyRules of a run, with the configuration it ran under. */
  function LastApply(groups: seq<DeviceRules>, calls: seq<Call>): Option<(seq<DeviceRules>, string, PointMap)> {
    if calls == [] then None
    else
      var before, last := calls[..|calls| - 1], calls[|calls| - 1];
      if last.ApplyCall? then Some((InForce(groups, before), last.device, last.points))
      else LastApply(groups, before)
  }

  /** LastAlarms is never stale: after any run it lists exactly the alarms of the last
      device applied, under the configuration of that call. */
  lemma {:induction false} AlarmsAreExact(groups: seq<DeviceRules>, calls: seq<Call>, eval: Evaluator, f: Floats)
    ensures After(groups, calls, eval, f).alarms
         == match LastApply(groups, calls)
            case None => []
            case Some((config, device, points)) => DeviceAlarms(config, device, points, eval, f)
  {
    if calls != [] {
      var before, last := calls[..|calls| - 1], calls[|calls| - 1];
      AlarmsAreExact(groups, before, eval, f);
      if last.ApplyCall? {
        RunFeedsTheLog(groups, before, eval, f);
        FlattenedAlarmsAreGrouped(InForce(groups, before), last.device, last.points, eval, f);
      }
    }
  }
}
