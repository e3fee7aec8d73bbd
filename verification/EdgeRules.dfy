/** Edge rules, and flattening them out of their per-device groups. */
module EdgeRules {
  import opened Permutations

  datatype AggregateRule = AggregateRule(id: string, description: string, kind: string,
                                         device: string, point: string, how: string, window: int)

  datatype AlarmRule = AlarmRule(id: string, description: string, kind: string, device: string, point: string,
                                 condition: string, level: string, message: string)

  datatype DeviceRules = DeviceRules(device: string, aggregate: seq<AggregateRule>, alarm: seq<AlarmRule>)

  function AggregatesOf(group: DeviceRules): seq<AggregateRule> {
    Apply((r: AggregateRule) => r.(device := group.device, kind := "aggregate"), group.aggregate)
  }

  function AlarmsOf(group: DeviceRules): seq<AlarmRule> {
    Apply((r: AlarmRule) => r.(device := group.device, kind := "alarm"), group.alarm)
  }

  function AllAggregates(groups: seq<DeviceRules>): seq<AggregateRule> {
    if groups == [] then [] else AllAggregates(groups[..|groups| - 1]) + AggregatesOf(groups[|groups| - 1])
  }

  function AllAlarms(groups: seq<DeviceRules>): seq<AlarmRule> {
    if groups == [] then [] else AllAlarms(groups[..|groups| - 1]) + AlarmsOf(groups[|groups| - 1])
  }

  /** How many aggregation rules the groups have. */
  function AggregateCount(groups: seq<DeviceRules>): nat {
    if groups == [] then 0 else AggregateCount(groups[..|groups| - 1]) + |groups[|groups| - 1].aggregate|
  }

  function AlarmCount(groups: seq<DeviceRules>): nat {
    if groups == [] then 0 else AlarmCount(groups[..|groups| - 1]) + |groups[|groups| - 1].alarm|
  }

  /** Rule j of group i comes out after all rules of the groups before, with the device of
      its group and the kind "aggregate", and every other field as configured. */
  lemma {:induction false} EachAggregateKept(groups: seq<DeviceRules>, i: nat, j: nat)
    requires i < |groups| && j < |groups[i].aggregate|
    ensures |AllAggregates(groups)| == AggregateCount(groups)
    ensures var at, r := AggregateCount(groups[..i]) + j, groups[i].aggregate[j];
      && at < |AllAggregates(groups)|
      && AllAggregates(groups)[at]
         == AggregateRule(r.id, r.description, "aggregate", groups[i].device, r.point, r.how, r.window)
    decreases |groups|
  {
    var n := |groups| - 1;
    AggregatesAreCounted(groups[..n]);
    if i < n {
      assert groups[..n][..i] == groups[..i];
      EachAggregateKept(groups[..n], i, j);
    }
  }

  lemma {:induction false} AggregatesAreCounted(groups: seq<DeviceRules>)
    ensures |AllAggregates(groups)| == AggregateCount(groups)
  {
    if groups != [] {
      AggregatesAreCounted(groups[..|groups| - 1]);
    }
  }

  lemma {:induction false} EachAlarmKept(groups: seq<DeviceRules>, i: nat, j: nat)
    requires i < |groups| && j < |groups[i].alarm|
    ensures |AllAlarms(groups)| == AlarmCount(groups)
    ensures var at, r := AlarmCount(groups[..i]) + j, groups[i].alarm[j];
      && at < |AllAlarms(groups)|
      && AllAlarms(groups)[at]
         == AlarmRule(r.id, r.description, "alarm", groups[i].device, r.point, r.condition, r.level, r.message)
    decreases |groups|
  {
    var n := |groups| - 1;
    AlarmsAreCounted(groups[..n]);
    if i < n {
      assert groups[..n][..i] == groups[..i];
      EachAlarmKept(groups[..n], i, j);
    }
  }

  lemma {:induction false} AlarmsAreCounted(groups: seq<DeviceRules>)
    ensures |AllAlarms(groups)| == AlarmCount(groups)
  {
    if groups != [] {
      AlarmsAreCounted(groups[..|groups| - 1]);
    }
  }

  method ExtractAggregateRules(devRules: seq<DeviceRules>) returns (out: seq<AggregateRule>)
    ensures out == AllAggregates(devRules)
  {
    out := [];
    for i := 0 to |devRules|
      invariant out == AllAggregates(devRules[..i])
    {
      var dr := devRules[i];
      ghost var before := out;
      for j := 0 to |dr.aggregate|
        invariant out == before + AggregatesOf(dr)[..j]
      {
        var rule := dr.aggregate[j].(device := dr.device, kind := "aggregate");
        out := out + [rule];
      }
      assert devRules[..i + 1][..i] == devRules[..i];
    }
    assert devRules[..|devRules|] == devRules;
  }

  method ExtractAlarmRules(devRules: seq<DeviceRules>) returns (out: seq<AlarmRule>)
    ensures out == AllAlarms(devRules)
  {
    out := [];
    for i := 0 to |devRules|
      invariant out == AllAlarms(devRules[..i])
    {
      var dr := devRules[i];
      ghost var before := out;
      for j := 0 to |dr.alarm|
        invariant out == before + AlarmsOf(dr)[..j]
      {
        var rule := dr.alarm[j].(device := dr.device, kind := "alarm");
        out := out + [rule];
      }
      assert devRules[..i + 1][..i] == devRules[..i];
    }
    assert devRules[..|devRules|] == devRules;
  }
}
