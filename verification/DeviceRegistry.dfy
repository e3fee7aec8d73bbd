/** BACnet device discovery: two listeners register devices concurrently, and each
    device is to be polled by one goroutine until it fails three times in a row. */
module DeviceRegistry {
  import opened Words

  datatype Info = Info(ip: string, deviceId: nat, vendorId: uint16)

  datatype Device = Device(id: string, ip: string, deviceId: nat, vendorId: uint16, online: bool, failCount: nat)

  // ---- I-Am frames ------------------------------------------------------

  function BigEndian32(bytes: seq<byte>, at: nat): nat
    requires at + 4 <= |bytes|
  {
    ((bytes[at] as int * 0x100 + bytes[at + 1]) * 0x100 + bytes[at + 2]) * 0x100 + bytes[at + 3]
  }

  /** parseIAM, the parser behind ListenIAM */
  function ParseFirst(data: seq<byte>, ip: string): Option<Info> {
    if |data| < 14 then None
    else if data[1] != 0x10 && data[4] != 0xC4 then None
    else
      var apdu := data[6..];
      if apdu[0] != 0x10 || apdu[1] != 0x00 then None
      else Some(Info(ip, BigEndian32(apdu, 2), WordAt(apdu, 3)))
  }

  /** ParseIAm, the parser of the second listener */
  function ParseSecond(buf: seq<byte>, ip: string): Option<Info> {
    if |buf| < 14 then None
    else if buf[1] != 0x10 || buf[4] != 0xC4 then None
    else Some(Info(ip, BigEndian32(buf, 8), WordAt(buf, 6)))
  }

  /** The two parsers read the same device out of every frame both accept; the second
      accepts a frame of the first exactly when both type bytes are in place. */
  lemma ParsersAgree(frame: seq<byte>, ip: string)
    ensures ParseFirst(frame, ip).Some? && ParseSecond(frame, ip).Some? ==> ParseFirst(frame, ip) == ParseSecond(frame, ip)
    ensures ParseFirst(frame, ip).Some? ==>
              (ParseSecond(frame, ip).Some? <==> frame[1] == 0x10 && frame[4] == 0xC4)
  {
  }

  /** What the parsers accept and read: the device id is bytes 8 to 11 and the vendor
      bytes 12 and 13, high byte first. */
  lemma FrameFields(frame: seq<byte>, ip: string)
    ensures ParseFirst(frame, ip).Some? <==>
              |frame| >= 14 && (frame[1] == 0x10 || frame[4] == 0xC4) && frame[6] == 0x10 && frame[7] == 0
    ensures ParseSecond(frame, ip).Some? <==> |frame| >= 14 && frame[1] == 0x10 && frame[4] == 0xC4
    ensures |frame| >= 14 ==>
      var info := Info(ip, frame[8] as int * 0x100_0000 + frame[9] as int * 0x1_0000
                           + frame[10] as int * 0x100 + frame[11],
                       frame[12] as int * 0x100 + frame[13]);
      && (ParseFirst(frame, ip).Some? ==> ParseFirst(frame, ip).value == info)
      && (ParseSecond(frame, ip).Some? ==> ParseSecond(frame, ip).value == info)
  {
  }

  // ---- Device keys ------------------------------------------------------

  function Decimal(n: nat): (s: string)
    ensures s != []
  {
    var digit := ['0' + (n % 10) as char];
    if n < 10 then digit else Decimal(n / 10) + digit
  }

  /** The number a string of digits stands for. */
  function NumberIn(s: string): int {
    if s == [] then 0 else NumberIn(s[..|s| - 1]) * 10 + (s[|s| - 1] as int - '0' as int)
  }

  /** Decimal is the decimal numeral, with no leading zero. */
  lemma {:induction false} DecimalIsNumeral(n: nat)
    ensures NumberIn(Decimal(n)) == n
    ensures forall i :: 0 <= i < |Decimal(n)| ==> '0' <= Decimal(n)[i] <= '9'
    ensures n > 0 ==> Decimal(n)[0] != '0'
  {
    var s := Decimal(n);
    if n >= 10 {
      DecimalIsNumeral(n / 10);
      assert s[..|s| - 1] == Decimal(n / 10);
    } else {
      assert s[..0] == [];
    }
  }

  lemma {:induction false} DecimalIsInjective(m: nat, n: nat)
    requires Decimal(m) == Decimal(n)
    ensures m == n
  {
    var s, t := Decimal(m), Decimal(n);
    assert s[|s| - 1] == '0' + (m % 10) as char;
    assert t[|t| - 1] == '0' + (n % 10) as char;
    if m >= 10 && n >= 10 {
      assert Decimal(m / 10) == s[..|s| - 1];
      assert Decimal(n / 10) == t[..|t| - 1];
      DecimalIsInjective(m / 10, n / 10);
    }
  }

  /** fmt.Sprintf("bacnet_%d") */
  function KeyOf(deviceId: nat): string {
    "bacnet_" + Decimal(deviceId)
  }

  lemma KeyIsInjective(d: nat, e: nat)
    requires KeyOf(d) == KeyOf(e)
    ensures d == e
  {
    assert Decimal(d) == KeyOf(d)[7..];
    assert Decimal(e) == KeyOf(e)[7..];
    DecimalIsInjective(d, e);
  }

  function NewDevice(info: Info): Device {
    Device(KeyOf(info.deviceId), info.ip, info.deviceId, info.vendorId, true, 0)
  }

  // ---- One poller -------------------------------------------------------

  /** Failures at the end of a history of polls. */
  function TrailingFailures(outcomes: seq<bool>): nat {
    if outcomes == [] || outcomes[|outcomes| - 1] then 0 else 1 + TrailingFailures(outcomes[..|outcomes| - 1])
  }

  /** Polls n-3, n-2 and n-1 failed. */
  predicate ThreeFailuresBefore(outcomes: seq<bool>, n: nat)
    requires n <= |outcomes|
  {
    n >= 3 && !outcomes[n - 1] && !outcomes[n - 2] && !outcomes[n - 3]
  }

  lemma {:induction false} ThreeTrailing(outcomes: seq<bool>)
    ensures TrailingFailures(outcomes) >= 3 <==> ThreeFailuresBefore(outcomes, |outcomes|)
  {
    var n := |outcomes|;
    if n >= 1 && !outcomes[n - 1] {
      var a := outcomes[..n - 1];
      if n >= 2 && !a[n - 2] {
        var b := a[..n - 2];
        assert TrailingFailures(outcomes) == 2 + TrailingFailures(b);
        assert n >= 3 ==> b[n - 3] == outcomes[n - 3];
      }
    }
  }

  class PolledDevice {
    var online: bool
    var failCount: nat

    constructor ()
      ensures online && failCount == 0
    {
      online := true;
      failCount := 0;
    }

    /** startPolling on a device just registered, for a given sequence of poll results:
        it stops right after the first three failures in a row, and never otherwise. */
    method StartPolling(outcomes: seq<bool>) returns (polls: nat)
      requires online && failCount == 0
      modifies this
      ensures polls <= |outcomes|
      ensures failCount == TrailingFailures(outcomes[..polls])
      ensures forall n :: 0 <= n < polls ==> !ThreeFailuresBefore(outcomes, n)
      ensures online <==> !ThreeFailuresBefore(outcomes, polls)
      ensures online ==> polls == |outcomes|
    {
      polls := 0;
      while polls < |outcomes|
        invariant polls <= |outcomes|
        invariant online && failCount == TrailingFailures(outcomes[..polls])
        invariant forall n :: 0 <= n <= polls ==> !ThreeFailuresBefore(outcomes, n)
      {
        var ok := outcomes[polls];
        polls := polls + 1;
        assert outcomes[..polls][..polls - 1] == outcomes[..polls - 1];
        ThreeTrailing(outcomes[..polls]);
        if !ok {
          failCount := failCount + 1;
          if failCount >= 3 {
            online := false;
            return;
          }
        } else {
          failCount := 0;
          online := true;
        }
      }
    }
  }

  // ---- The registry under every interleaving ----------------------------

  /** devMap and the goroutines around it. A call of RegisterAndStartPolling that has
      released the lock but not started its poller is waiting. */
  datatype State = State(
    devMap: map<string, Device>,
    waiting: multiset<string>,          // keys inserted, poller not yet started
    started: multiset<string>,          // pollers ever started, per key
    running: multiset<string>,          // pollers still polling, per key
    first: map<string, Info>,           // the registration each entry came from
    polls: map<string, seq<bool>>)      // poll results per key

  const EMPTY := State(map[], multiset{}, multiset{}, multiset{}, map[], map[])

  datatype Action =
    | Register(info: Info)              // RegisterDevice, all of it under the lock
    | Insert(info: Info)                // RegisterAndStartPolling up to the unlock
    | Spawn(key: string)                // and its go startPolling
    | Poll(key: string, ok: bool)       // one tick of a poller

  predicate Enabled(s: State, a: Action) {
    match a
    case Register(_) => true
    case Insert(_) => true
    case Spawn(key) => key in s.waiting && key in s.devMap
    case Poll(key, _) => key in s.running && key in s.devMap && key in s.polls
  }

  function Inserted(s: State, info: Info): State {
    var key := KeyOf(info.deviceId);
    s.(devMap := s.devMap[key := NewDevice(info)], first := s.first[key := info], polls := s.polls[key := []])
  }

  function Started(s: State, key: string): State {
    s.(started := s.started + multiset{key}, running := s.running + multiset{key})
  }

  function Polled(d: Device, ok: bool): Device {
    if ok then d.(failCount := 0, online := true)
    else d.(failCount := d.failCount + 1, online := d.online && d.failCount + 1 < 3)
  }

  function Next(s: State, a: Action): State
    requires Enabled(s, a)
  {
    match a
    case Register(info) =>
      var key := KeyOf(info.deviceId);
      if key in s.devMap then s else Started(Inserted(s, info), key)
    case Insert(info) =>
      var key := KeyOf(info.deviceId);
      if key in s.devMap then s else Inserted(s, info).(waiting := s.waiting + multiset{key})
    case Spawn(key) => Started(s, key).(waiting := s.waiting - multiset{key})
    case Poll(key, ok) =>
      var d := Polled(s.devMap[key], ok);
      s.(devMap := s.devMap[key := d],
         polls := s.polls[key := s.polls[key] + [ok]],
         running := if !ok && d.failCount >= 3 then s.running - multiset{key} else s.running)
  }

  /** The registry as the listeners' code updates it. */
  class Registry {
    var devMap: map<string, Device>
    var waiting: multiset<string>
    var started: multiset<string>
    var running: multiset<string>
    ghost var first: map<string, Info>
    ghost var polls: map<string, seq<bool>>

    ghost function Model(): State
      reads this
    {
      State(devMap, waiting, started, running, first, polls)
    }

    constructor ()
      ensures Model() == EMPTY
    {
      devMap, waiting, started, running := map[], multiset{}, multiset{}, multiset{};
      first, polls := map[], map[];
    }

    method RegisterDevice(info: Info)
      modifies this
      ensures Model() == Next(old(Model()), Register(info))
    {
      var devKey := KeyOf(info.deviceId);
      if devKey in devMap {
        return;
      }
      devMap := devMap[devKey := Device(devKey, info.ip, info.deviceId, info.vendorId, true, 0)];
      first, polls := first[devKey := info], polls[devKey := []];
      started, running := started + multiset{devKey}, running + multiset{devKey};
    }

    /** The part of RegisterAndStartPolling that holds the lock; added says whether the
        caller goes on to start a poller. */
    method InsertDevice(info: Info) returns (added: bool)
      modifies this
      ensures Model() == Next(old(Model()), Insert(info))
      ensures added <==> KeyOf(info.deviceId) !in old(devMap)
    {
      var key := KeyOf(info.deviceId);
      if key in devMap {
        return false;
      }
      devMap := devMap[key := Device(key, info.ip, info.deviceId, info.vendorId, true, 0)];
      first, polls := first[key := info], polls[key := []];
      waiting := waiting + multiset{key};
      added := true;
    }
  }

  /** A device heard for the first time, by either listener, is entered under its key with
      the address, id and vendor heard, online and with no failures; a later announcement
      changes nothing. */
  lemma FirstHeardIsEntered(s: State, a: Action, info: Info)
    requires a == Register(info) || a == Insert(info)
    ensures var key, t := "bacnet_" + Decimal(info.deviceId), Next(s, a);
      if key in s.devMap then t == s
      else t.devMap == s.devMap[key := Device(key, info.ip, info.deviceId, info.vendorId, true, 0)]
  {
  }

  ghost predicate RunsFrom(from: State, actions: seq<Action>, to: State) {
    if actions == [] then to == from
    else
      var n := |actions| - 1;
      exists mid :: RunsFrom(from, actions[..n], mid) && Enabled(mid, actions[n]) && to == Next(mid, actions[n])
  }

  ghost predicate Runs(actions: seq<Action>, to: State) {
    RunsFrom(EMPTY, actions, to)
  }

  /** Everything kept about one key. */
  ghost predicate KeyInv(s: State, key: string) {
    if key !in s.devMap then
      s.started[key] == 0 && s.waiting[key] == 0 && s.running[key] == 0
    else
      && s.started[key] + s.waiting[key] == 1
      && s.running[key] <= s.started[key]
      && key in s.first && key in s.polls
      && key == KeyOf(s.first[key].deviceId)
      && s.devMap[key] == NewDevice(s.first[key]).(online := s.devMap[key].online, failCount := s.devMap[key].failCount)
      && s.devMap[key].failCount == TrailingFailures(s.polls[key])
      && (forall n :: 0 <= n < |s.polls[key]| ==> !ThreeFailuresBefore(s.polls[key], n))
      && (s.devMap[key].online <==> !ThreeFailuresBefore(s.polls[key], |s.polls[key]|))
      && (s.devMap[key].online <==> s.running[key] + s.waiting[key] == 1)
      && (s.waiting[key] == 1 ==> s.polls[key] == [])
  }

  ghost predicate Inv(s: State) {
    forall key :: KeyInv(s, key)
  }

  lemma RegistrationKeeps(s: State, a: Action, key: string)
    requires KeyInv(s, key) && Enabled(s, a) && (a.Register? || a.Insert?)
    ensures KeyInv(Next(s, a), key)
  {
  }

  lemma SpawnKeeps(s: State, spawned: string, key: string)
    requires KeyInv(s, key) && KeyInv(s, spawned) && Enabled(s, Spawn(spawned))
    ensures KeyInv(Next(s, Spawn(spawned)), key)
  {
  }

  lemma StepKeeps(s: State, a: Action)
    requires Inv(s) && Enabled(s, a)
    ensures Inv(Next(s, a))
  {
    forall key
      ensures KeyInv(Next(s, a), key)
    {
      assert KeyInv(s, key);
      match a
      case Register(_) => RegistrationKeeps(s, a, key);
      case Insert(_) => RegistrationKeeps(s, a, key);
      case Spawn(spawned) =>
        assert KeyInv(s, spawned);
        SpawnKeeps(s, spawned, key);
      case Poll(polled, ok) =>
        if polled == key {
          PollKeeps(s, key, ok);
        }
    }
  }

  lemma PollKeeps(s: State, key: string, ok: bool)
    requires KeyInv(s, key) && Enabled(s, Poll(key, ok))
    ensures KeyInv(Next(s, Poll(key, ok)), key)
  {
    var t := Next(s, Poll(key, ok));
    var before, after := s.polls[key], s.polls[key] + [ok];
    assert after[..|after| - 1] == before;
    ThreeTrailing(before);
    ThreeTrailing(after);
    forall n | 0 <= n < |after|
      ensures !ThreeFailuresBefore(after, n)
    {
      assert n < |before| ==> !ThreeFailuresBefore(before, n);
    }
  }

  lemma {:induction false} RunFromKeeps(from: State, actions: seq<Action>, s: State)
    requires Inv(from) && RunsFrom(from, actions, s)
    ensures Inv(s)
  {
    if actions != [] {
      var n := |actions| - 1;
      var mid :| RunsFrom(from, actions[..n], mid) && Enabled(mid, actions[n]) && s == Next(mid, actions[n]);
      RunFromKeeps(from, actions[..n], mid);
      StepKeeps(mid, actions[n]);
    }
  }

  lemma RunKeeps(actions: seq<Action>, s: State)
    requires Runs(actions, s)
    ensures Inv(s)
  {
    RunFromKeeps(EMPTY, actions, s);
  }

  // ---- What every interleaving guarantees -------------------------------

  /** For each device, pollers started plus calls about to start one are 1 once the
      device is registered and 0 before, whatever the listeners do. */
  lemma OnePollerPerDevice(actions: seq<Action>, s: State, deviceId: nat)
    requires Runs(actions, s)
    ensures var key := KeyOf(deviceId);
      s.started[key] + s.waiting[key] == (if key in s.devMap then 1 else 0)
  {
    RunKeeps(actions, s);
    assert KeyInv(s, KeyOf(deviceId));
  }

  /** The entry of a device always carries its own id. */
  lemma EntriesAreTheirOwn(actions: seq<Action>, s: State, deviceId: nat)
    requires Runs(actions, s) && KeyOf(deviceId) in s.devMap
    ensures s.devMap[KeyOf(deviceId)].deviceId == deviceId
  {
    RunKeeps(actions, s);
    assert KeyInv(s, KeyOf(deviceId));
    KeyIsInjective(deviceId, s.first[KeyOf(deviceId)].deviceId);
  }

  /** The first announcement of a device in a run, by either listener. */
  function FirstHeard(actions: seq<Action>, deviceId: nat): Option<Info> {
    if actions == [] then None
    else
      var before, last := FirstHeard(actions[..|actions| - 1], deviceId), actions[|actions| - 1];
      if before.Some? then before
      else if (last.Register? || last.Insert?) && last.info.deviceId == deviceId then Some(last.info)
      else None
  }

  ghost predicate IsEntryOf(d: Device, info: Info) {
    d == Device("bacnet_" + Decimal(info.deviceId), info.ip, info.deviceId, info.vendorId, d.online, d.failCount)
  }

  lemma HeardStep(s: State, a: Action, deviceId: nat)
    requires Enabled(s, a)
    ensures var key, t := KeyOf(deviceId), Next(s, a);
      if key in s.devMap then
        key in t.devMap && forall info :: IsEntryOf(s.devMap[key], info) ==> IsEntryOf(t.devMap[key], info)
      else if (a.Register? || a.Insert?) && a.info.deviceId == deviceId then
        key in t.devMap && IsEntryOf(t.devMap[key], a.info)
      else key !in t.devMap
  {
    if a.Register? || a.Insert? {
      if KeyOf(a.info.deviceId) == KeyOf(deviceId) {
        KeyIsInjective(a.info.deviceId, deviceId);
      }
    }
  }

  /** Under every interleaving a device is in the map exactly once it was announced, and
      its entry is that of the first announcement. */
  lemma {:induction false} EntriesAreFirstHeard(actions: seq<Action>, s: State, deviceId: nat)
    requires Runs(actions, s)
    ensures KeyOf(deviceId) in s.devMap <==> FirstHeard(actions, deviceId).Some?
    ensures KeyOf(deviceId) in s.devMap ==> IsEntryOf(s.devMap[KeyOf(deviceId)], FirstHeard(actions, deviceId).value)
  {
    if actions != [] {
      var n := |actions| - 1;
      var mid :| RunsFrom(EMPTY, actions[..n], mid) && Enabled(mid, actions[n]) && s == Next(mid, actions[n]);
      EntriesAreFirstHeard(actions[..n], mid, deviceId);
      HeardStep(mid, actions[n], deviceId);
    }
  }

  lemma RegistrationIsKept(s: State, a: Action, key: string)
    requires Enabled(s, a) && key in s.devMap
    ensures var d, e := s.devMap[key], Next(s, a).devMap;
      key in e && e[key] == d.(online := e[key].online, failCount := e[key].failCount)
  {
  }

  /** No later run replaces the fields of a registration; only the poll state moves. */
  lemma {:induction false} RegistrationIsFinal(s: State, more: seq<Action>, t: State, key: string)
    requires RunsFrom(s, more, t) && key in s.devMap
    ensures var d, e := s.devMap[key], t.devMap;
      key in e && e[key] == d.(online := e[key].online, failCount := e[key].failCount)
    decreases |more|
  {
    if more != [] {
      var n := |more| - 1;
      var mid :| RunsFrom(s, more[..n], mid) && Enabled(mid, more[n]) && t == Next(mid, more[n]);
      RegistrationIsFinal(s, more[..n], mid, key);
      RegistrationIsKept(mid, more[n], key);
    }
  }

  /** FailCount is the length of the trailing failure run; the device is online exactly
      until its first three failures in a row, where its poller stops. */
  lemma PollStateIsExact(actions: seq<Action>, s: State, key: string)
    requires Runs(actions, s) && key in s.devMap
    ensures key in s.polls
    ensures var d, polls := s.devMap[key], s.polls[key];
      && d.failCount == TrailingFailures(polls)
      && (forall n :: 0 <= n < |polls| ==> !ThreeFailuresBefore(polls, n))
      && (d.online <==> !ThreeFailuresBefore(polls, |polls|))
      && (d.online <==> s.running[key] + s.waiting[key] == 1)
  {
    RunKeeps(actions, s);
    assert KeyInv(s, key);
  }

  /** The device is registered and nothing polls it or is about to. */
  ghost predicate Abandoned(s: State, key: string, d: Device, polls: seq<bool>) {
    && key in s.devMap && s.devMap[key] == d
    && key in s.polls && s.polls[key] == polls
    && s.running[key] == 0 && s.waiting[key] == 0
  }

  lemma AbandonedStep(s: State, a: Action, key: string, d: Device, polls: seq<bool>)
    requires Enabled(s, a) && Abandoned(s, key, d, polls)
    ensures Abandoned(Next(s, a), key, d, polls)
  {
  }

  lemma {:induction false} AbandonedForever(s: State, more: seq<Action>, t: State, key: string, d: Device,
                                            polls: seq<bool>)
    requires RunsFrom(s, more, t) && Abandoned(s, key, d, polls)
    ensures Abandoned(t, key, d, polls)
    decreases |more|
  {
    if more != [] {
      var n := |more| - 1;
      var mid :| RunsFrom(s, more[..n], mid) && Enabled(mid, more[n]) && t == Next(mid, more[n]);
      AbandonedForever(s, more[..n], mid, key, d, polls);
      AbandonedStep(mid, more[n], key, d, polls);
    }
  }

  /** A device that went offline stays so: its key is taken, so no later announcement,
      on either path, starts another poller, and it is never polled again. */
  lemma {:induction false} OfflineForever(actions: seq<Action>, s: State, more: seq<Action>, t: State, key: string)
    requires Runs(actions, s) && RunsFrom(s, more, t)
    requires key in s.devMap && !s.devMap[key].online
    ensures key in s.polls && Abandoned(t, key, s.devMap[key], s.polls[key])
  {
    RunKeeps(actions, s);
    assert KeyInv(s, key);
    AbandonedForever(s, more, t, key, s.devMap[key], s.polls[key]);
  }

  /** A frame that both listeners hear and accept registers its device once, whichever
      of them comes first. */
  lemma FrameHeardTwice(actions: seq<Action>, s: State, frame: seq<byte>, ip: string)
    requires Runs(actions, s)
    requires ParseFirst(frame, ip).Some? && ParseSecond(frame, ip).Some?
    ensures var a, b := Register(ParseFirst(frame, ip).value), Insert(ParseSecond(frame, ip).value);
      var key := KeyOf(ParseFirst(frame, ip).value.deviceId);
      && Next(Next(s, a), b).started[key] + Next(Next(s, a), b).waiting[key] == 1
      && Next(Next(s, b), a).started[key] + Next(Next(s, b), a).waiting[key] == 1
  {
    RunKeeps(actions, s);
    ParsersAgree(frame, ip);
    assert KeyInv(s, KeyOf(ParseFirst(frame, ip).value.deviceId));
  }
}
