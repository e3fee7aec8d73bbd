/** The edge rule engine: aggregation windows and alarms, applied device by device. */
module RuleEngine {
  import opened Dynamic
  import opened Words
  import opened EdgeRules
  import opened SlidingWindow

  /** How the rules see floats: the number a float64 stands for, the float64 of a
      float32, and the float64 of an integer. */
  datatype Floats = Floats(number: nat -> real, widen: nat -> nat, ofInt: int -> nat)

  type PointMap = map<string, Value>

  /** mapping.EvalExpression on a condition and a value; None is an error. */
  type Evaluator = (string, Value) -> Option<Value>

  datatype AlarmInfo = AlarmInfo(name: string, level: string, message: string)

  function Key(device: string, point: string): string {
    device + "." + point
  }

  // ---- Aggregation ------------------------------------------------------

  /** The sample an aggregation rule takes, if the rule is for this device and the
      point is there as a float64. */
  function SampleFor(rule: AggregateRule, device: string, points: PointMap, f: Floats): Option<Event> {
    if rule.device == device && rule.point in points && points[rule.point].Float64? then
      Some(Event(Key(device, rule.point), rule.window, (f.number)(points[rule.point].bits64)))
    else None
  }

  function EventsOf(rules: seq<AggregateRule>, device: string, points: PointMap, f: Floats): seq<Event> {
    if rules == [] then []
    else
      var before := EventsOf(rules[..|rules| - 1], device, points, f);
      match SampleFor(rules[|rules| - 1], device, points, f)
      case None => before
      case Some(e) => before + [e]
  }

  // ---- Alarms -----------------------------------------------------------

  /** The conversion before a condition is evaluated: int16 and uint stay as they are. */
  function Numeric(v: Value, f: Floats): Value {
    match v
    case Float32(bits) => Float64((f.widen)(bits))
    case GoInt(n) => Float64((f.ofInt)(n))
    case Int32(n) => Float64((f.ofInt)(n))
    case Int64(n) => Float64((f.ofInt)(n))
    case Uint16(n) => Float64((f.ofInt)(n))
    case Uint32(n) => Float64((f.ofInt)(n))
    case Uint64(n) => Float64((f.ofInt)(n))
    case _ => v
  }

  predicate Triggered(rule: AlarmRule, device: string, points: PointMap, eval: Evaluator, f: Floats) {
    && rule.device == device
    && rule.point in points
    && eval(rule.condition, Numeric(points[rule.point], f)) == Some(Bool(true))
  }

  function AlarmsFrom(rules: seq<AlarmRule>, device: string, points: PointMap, eval: Evaluator,
                      f: Floats): seq<AlarmInfo> {
    if rules == [] then []
    else
      var before, rule := AlarmsFrom(rules[..|rules| - 1], device, points, eval, f), rules[|rules| - 1];
      if Triggered(rule, device, points, eval, f) then before + [AlarmInfo(rule.point, rule.level, rule.message)]
      else before
  }

  // ---- The engine -------------------------------------------------------

  class PointBuffer {
    var values: seq<real>
    var size: int

    constructor (size: int)
      ensures this.values == [] && this.size == size
    {
      this.values := [];
      this.size := size;
    }

    ghost function Contents(): Window
      reads this
    {
      Window(values, size)
    }

    method AddValue(v: real)
      modifies this
      ensures Contents() == Add(old(Contents()), v)
    {
      values := values + [v];
      if |values| > size {
        values := values[1..];
      }
    }

    method Average() returns (avg: real)
      ensures avg == Avg(values)
    {
      var sum := 0.0;
      for i := 0 to |values|
        invariant sum == Sum(values[..i])
      {
        assert values[..i + 1][..i] == values[..i];
        sum := sum + values[i];
      }
      assert values[..|values|] == values;
      if |values| == 0 {
        return 0.0;
      }
      avg := sum / |values| as real;
    }
  }

  class RuleEngine {
    var aggRules: seq<AggregateRule>
    var alarmRules: seq<AlarmRule>
    var buffers: map<string, PointBuffer>
    var lastAlarms: seq<AlarmInfo>

    /** No two keys share a buffer. */
    ghost predicate Valid()
      reads this
    {
      forall k, l :: k in buffers && l in buffers && k != l ==> buffers[k] != buffers[l]
    }

    ghost function Buffers(): Windows
      reads this, buffers.Values
    {
      map k | k in buffers :: buffers[k].Contents()
    }

    constructor (agg: seq<AggregateRule>, alarm: seq<AlarmRule>)
      ensures Valid() && aggRules == agg && alarmRules == alarm && Buffers() == map[] && lastAlarms == []
    {
      aggRules := agg;
      alarmRules := alarm;
      buffers := map[];
      lastAlarms := [];
    }

    method TakeSample(e: Event)
      requires Valid()
      modifies this`buffers, buffers.Values
      ensures Valid() && fresh(buffers.Values - old(buffers.Values))
      ensures Buffers() == Feed(old(Buffers()), e)
    {
      if e.key !in buffers {
        var created := new PointBuffer(e.window);
        buffers := buffers[e.key := created];
      }
      buffers[e.key].AddValue(e.value);
    }

    method ApplyAggregate(rule: AggregateRule, device: string, points: PointMap, f: Floats)
      requires Valid()
      modifies this`buffers, buffers.Values
      ensures Valid() && fresh(buffers.Values - old(buffers.Values))
      ensures Buffers() == match SampleFor(rule, device, points, f)
                           case None => old(Buffers())
                           case Some(e) => Feed(old(Buffers()), e)
    {
      if rule.device == device && rule.point in points {
        var val := points[rule.point];
        if val.Float64? {
          TakeSample(Event(Key(device, rule.point), rule.window, (f.number)(val.bits64)));
        }
      }
    }

    method ApplyAggregates(device: string, points: PointMap, f: Floats)
      requires Valid()
      modifies this`buffers, buffers.Values
      ensures Valid() && fresh(buffers.Values - old(buffers.Values))
      ensures Buffers() == FeedAll(old(Buffers()), EventsOf(aggRules, device, points, f))
    {
      for i := 0 to |aggRules|
        invariant Valid() && fresh(buffers.Values - old(buffers.Values))
        invariant Buffers() == FeedAll(old(Buffers()), EventsOf(aggRules[..i], device, points, f))
      {
        assert aggRules[..i + 1][..i] == aggRules[..i];
        ApplyAggregate(aggRules[i], device, points, f);
      }
      assert aggRules[..|aggRules|] == aggRules;
    }

    method ApplyAlarms(device: string, points: PointMap, eval: Evaluator, f: Floats)
      modifies this`lastAlarms
      ensures lastAlarms == AlarmsFrom(alarmRules, device, points, eval, f)
    {
      lastAlarms := [];
      for i := 0 to |alarmRules|
        invariant lastAlarms == AlarmsFrom(alarmRules[..i], device, points, eval, f)
      {
        var rule := alarmRules[i];
        assert alarmRules[..i + 1][..i] == alarmRules[..i];
        if rule.device == device && rule.point in points {
          var triggered := eval(rule.condition, Numeric(points[rule.point], f));
          if triggered == Some(Bool(true)) {
            lastAlarms := lastAlarms + [AlarmInfo(rule.point, rule.level, rule.message)];
          }
        }
      }
      assert alarmRules[..|alarmRules|] == alarmRules;
    }

    method ApplyRules(device: string, points: PointMap, eval: Evaluator, f: Floats)
      requires Valid()
      modifies this`buffers, this`lastAlarms, buffers.Values
      ensures Valid() && fresh(buffers.Values - old(buffers.Values))
      ensures Buffers() == FeedAll(old(Buffers()), EventsOf(aggRules, device, points, f))
      ensures lastAlarms == AlarmsFrom(alarmRules, device, points, eval, f)
    {
      ApplyAggregates(device, points, f);
      ApplyAlarms(device, points, eval, f);
    }

    /** The hot reload: new rules, the buffers and the last alarms stay. */
    method Reload(devRules: seq<DeviceRules>)
      requires Valid()
      modifies this`aggRules, this`alarmRules
      ensures Valid() && Buffers() == old(Buffers()) && buffers == old(buffers)
      ensures aggRules == AllAggregates(devRules) && alarmRules == AllAlarms(devRules)
    {
      aggRules := ExtractAggregateRules(devRules);
      alarmRules := ExtractAlarmRules(devRules);
    }
  }
}
