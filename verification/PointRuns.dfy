/** The point table over runs of Write, Close and Reconnect after Init. */
module PointRuns {
  import opened Dynamic
  import opened Words
  import opened PointStore

  datatype Op = Put(key: string, value: Value) | Shut | Reopen

  function Do(s: Store, op: Op): (t: Store)
    requires Indexed(s)
    ensures Indexed(t)
  {
    match op
    case Put(key, value) => WriteKey(s, key, value).0
    case Shut => s.(connected := false)
    case Reopen => s.(connected := true)
  }

  function DoAll(s: Store, ops: seq<Op>): (t: Store)
    requires Indexed(s)
    ensures Indexed(t)
  {
    if ops == [] then s else Do(DoAll(s, ops[..|ops| - 1]), ops[|ops| - 1])
  }

  // ---- One read ---------------------------------------------------------

  /** This point answers to the key: a name before an address before an id. */
  predicate Answers(s: Store, key: string, p: Point)
    requires Indexed(s)
  {
    if key in s.points then p == s.points[key]
    else if key in s.addressToName then p == s.points[s.addressToName[key]]
    else key in s.idToName && p == s.points[s.idToName[key]]
  }

  predicate IsKey(s: Store, key: string) {
    key in s.points || key in s.addressToName || key in s.idToName
  }

  /** The value, or the default of a point without one: false for the kind "bool", 42.0
      for any other. */
  predicate Defaults(p: Point, v: Value) {
    if p.value != Nil then v == p.value
    else if p.kind == "bool" then v == Bool(false)
    else v == Float64(0x4045_0000_0000_0000)
  }

  /** The value after the transform: itself without one, or when it fails. */
  predicate Transforms(transform: string, v: Value, eval: Evaluator, w: Value) {
    w == if transform == "" || eval(transform, v) == None then v else eval(transform, v).value
  }

  /** What reading a key gives: the value of the point that answers to it, transformed,
      under that point's name; or nothing good, under the key itself. */
  lemma ReadIs(s: Store, key: string, eval: Evaluator)
    requires Indexed(s)
    ensures !IsKey(s, key) ==> ReadKey(s, key, eval) == Reading(key, Nil, false)
    ensures forall p, v, w :: Answers(s, key, p) && Defaults(p, v) && Transforms(p.transform, v, eval, w) ==>
      ReadKey(s, key, eval) == Reading(p.name, w, true)
  {
  }

  /** Reading all points gives each its value or default, with no transform. */
  lemma DefaultIs(p: Point, v: Value)
    ensures v == OrDefault(p) <==> Defaults(p, v)
  {
  }

  /** Every field of a configured point. */
  lemma FieldsAreConfigured(device: string, e: Entry)
    ensures var p := PointOf(device, e);
      && p.name == (match e.name case Given(t) => t case Null => "<nil>" case Missing => "")
      && p.address == (match e.address case Given(t) => t case Null => "<nil>" case Missing => "")
      && p.kind == (match e.kind case Given(t) => t case Null => "<nil>" case Missing => "")
      && p.transform == (match e.transform case Given(t) => t case Null => "<nil>" case Missing => "")
      && (e.id.Given? ==> p.id == e.id.text) && (e.id.Null? ==> p.id == "<nil>")
      && (e.id.Missing? && device != "" && e.name.Given? ==> p.id == device + "." + e.name.text)
      && (e.id.Missing? && (device == "" || !e.name.Given?) ==> p.id == "")
      && (e.initValue == Some(p.value) || (e.initValue == None && p.value == Nil))
      && p.writable == e.writable
  {
  }

  /** The value type a configured name stands for; TypeNull for none and any other. */
  lemma TypesAreNamed(name: string)
    ensures TypeNamed(None) == TypeNull
    ensures TypeNamed(Some(name)) == TypeReal <==> name == "REAL"
    ensures TypeNamed(Some(name)) == TypeSignedInt <==> name == "INTEGER"
    ensures TypeNamed(Some(name)) == TypeBoolean <==> name == "BOOLEAN"
    ensures TypeNamed(Some(name)) == TypeEnumerated <==> name == "ENUMERATED"
    ensures TypeNamed(Some(name)) == TypeCharacterString <==> name == "CHARACTERSTRING"
    ensures TypeNamed(Some(name)) == TypeOctetString <==> name == "OCTETSTRING"
    ensures TypeNamed(Some(name)) == TypeBitString <==> name == "BITSTRING"
    ensures TypeNamed(Some(name)) == TypeObjectID <==> name == "OBJECTID"
    ensures TypeNamed(Some(name)) == TypeNull <==>
              name !in {"REAL", "INTEGER", "BOOLEAN", "ENUMERATED", "CHARACTERSTRING", "OCTETSTRING", "BITSTRING",
                        "OBJECTID"}
  {
    TypeNamesDiffer();
  }

  lemma TypeNamesDiffer()
    ensures "REAL"[0] == 'R' && "INTEGER"[0] == 'I' && "ENUMERATED"[0] == 'E' && "CHARACTERSTRING"[0] == 'C'
    ensures "BOOLEAN"[..2] == "BO" && "BITSTRING"[..2] == "BI" && "OCTETSTRING"[..2] == "OC" && "OBJECTID"[..2] == "OB"
  {
  }

  // ---- One write --------------------------------------------------------

  /** A point of this type takes this value: each Go type belongs to certain property
      types, and a point without a type takes anything, nil included. */
  predicate Takes(t: ValueType, v: Value) {
    t == TypeNull ||
    match v
    case Float64(_) => t == TypeReal || t == TypeDouble
    case GoInt(_) => t == TypeSignedInt || t == TypeEnumerated
    case Uint64(_) => t == TypeUnsignedInt
    case Bool(_) => t == TypeBoolean
    case Str(_) => t == TypeCharacterString || t == TypeDate || t == TypeTime
    case Bytes(_) => t == TypeOctetString
    case BoolSlice(_) => t == TypeBitString
    case ObjectID(_, _) => t == TypeObjectID
    case _ => false
  }

  lemma CheckIs(t: ValueType, v: Value)
    ensures CheckValue(t, v)
         == if Takes(t, v) then Accepted else if v == Nil && t != TypeObjectID then Panics else Rejected
  {
  }

  /** Exactly when a write to an answering point succeeds, what it changes, and why it
      fails. A nil value is an error for an object id and a panic for every other type. */
  lemma WriteIff(s: Store, key: string, value: Value, p: Point)
    requires Indexed(s) && s.connected && Answers(s, key, p)
    ensures WriteKey(s, key, value)
         == if !p.writable then (s, Some(NotWritable))
            else if Takes(p.valueType, value) then (s.(points := s.points[p.name := p.(value := value)]), None)
            else (s, Some(if value == Nil && p.valueType != TypeObjectID then NilValue else WrongType))
  {
    CheckIs(p.valueType, value);
  }

  /** A write on a closed client, or to a key no point answers to, is refused as such. */
  lemma WriteNeedsPoint(s: Store, key: string, value: Value)
    requires Indexed(s)
    ensures !s.connected ==> WriteKey(s, key, value) == (s, Some(NotConnected))
    ensures s.connected && !IsKey(s, key) ==> WriteKey(s, key, value) == (s, Some(NotFound))
  {
  }

  /** A write either fails and changes nothing, or every key that names the written
      point reads the new value back and every other key reads what it read before. */
  lemma WriteThenRead(s: Store, key: string, value: Value, other: string, eval: Evaluator)
    requires Indexed(s)
    ensures var (t, error) := WriteKey(s, key, value);
      && Indexed(t)
      && (error.Some? ==> t == s)
      && Resolve(t, other) == Resolve(s, other)
      && (error == None ==>
            && Resolve(s, key).Some?
            && ReadKey(t, other, eval)
               == if Resolve(s, other) == Resolve(s, key)
                  then ReadPoint(s.points[Resolve(s, key).value].(value := value), eval)
                  else ReadKey(s, other, eval))
  {
  }

  /** With an empty transform, what is read back is the value itself, by whichever of
      the three keys; a nil value, which only an untyped point takes, reads as the default. */
  lemma ReadBackExactly(s: Store, key: string, value: Value, other: string, eval: Evaluator)
    requires Indexed(s) && WriteKey(s, key, value).1 == None
    requires Resolve(s, other) == Resolve(s, key)
    requires s.points[Resolve(s, key).value].transform == ""
    ensures var p := s.points[Resolve(s, key).value];
      && ReadKeys(WriteKey(s, key, value).0, [other], eval)
         == Some([Reading(p.name, if value != Nil then value else OrDefault(p.(value := Nil)), true)])
      && (value == Nil ==> p.valueType == TypeNull)
  {
    WriteThenRead(s, key, value, other, eval);
    var t := WriteKey(s, key, value).0;
    assert ReadKeys(t, [other], eval).value == [ReadKey(t, other, eval)];
  }

  // ---- Runs -------------------------------------------------------------

  /** How a point may differ from its configuration. */
  predicate Evolved(first: Point, now: Point) {
    && now == first.(value := now.value)
    && (now.value == first.value || (first.writable && Takes(first.valueType, now.value)))
  }

  ghost predicate StoreEvolved(first: Store, now: Store) {
    && now.points.Keys == first.points.Keys
    && now.idToName == first.idToName && now.addressToName == first.addressToName
    && forall k <- first.points :: Evolved(first.points[k], now.points[k])
  }

  lemma PutEvolves(first: Store, s: Store, key: string, value: Value, k: string)
    requires Indexed(s) && k in first.points && k in s.points && Evolved(first.points[k], s.points[k])
    ensures k in WriteKey(s, key, value).0.points && Evolved(first.points[k], WriteKey(s, key, value).0.points[k])
  {
    CheckIs(s.points[k].valueType, value);
  }

  lemma StepEvolves(first: Store, s: Store, op: Op)
    requires Indexed(first) && Indexed(s) && StoreEvolved(first, s)
    ensures StoreEvolved(first, Do(s, op))
  {
    if op.Put? {
      var t := Do(s, op);
      forall k | k in first.points
        ensures Evolved(first.points[k], t.points[k])
      {
        assert Evolved(first.points[k], s.points[k]);
        PutEvolves(first, s, op.key, op.value, k);
      }
    }
  }

  /** Over any run a point keeps its identity, a read-only point keeps its value, and a
      value is the configured one or passed the check for its type. */
  lemma {:induction false} RunEvolves(first: Store, ops: seq<Op>)
    requires Indexed(first)
    ensures StoreEvolved(first, DoAll(first, ops))
  {
    if ops != [] {
      RunEvolves(first, ops[..|ops| - 1]);
      StepEvolves(first, DoAll(first, ops[..|ops| - 1]), ops[|ops| - 1]);
    }
  }

  /** Open exactly when the last Close or Reconnect of the run left it open. */
  function LeftOpen(open: bool, ops: seq<Op>): bool {
    if ops == [] then open
    else
      match ops[|ops| - 1]
      case Put(_, _) => LeftOpen(open, ops[..|ops| - 1])
      case Shut => false
      case Reopen => true
  }

  lemma {:induction false} RunConnected(first: Store, ops: seq<Op>)
    requires Indexed(first)
    ensures DoAll(first, ops).connected == LeftOpen(first.connected, ops)
  {
    if ops != [] {
      RunConnected(first, ops[..|ops| - 1]);
    }
  }

  /** A closed client refuses reads and writes, and a reconnect finds every value as
      Close left it, whatever writes were tried in between. */
  lemma {:induction false} ClosedKeepsValues(s: Store, key: string, value: Value, keys: seq<string>, eval: Evaluator)
    requires Indexed(s) && s.connected
    ensures var closed := Do(s, Shut);
      && ReadKeys(closed, keys, eval) == None
      && WriteKey(closed, key, value) == (closed, Some(NotConnected))
      && DoAll(s, [Shut, Put(key, value), Reopen]) == s
  {
    var closed := Do(s, Shut);
    assert [Shut, Put(key, value), Reopen][..2] == [Shut, Put(key, value)];
    assert [Shut, Put(key, value)][..1] == [Shut];
    assert DoAll(s, [Shut]) == closed;
    assert DoAll(s, [Shut, Put(key, value)]) == closed;
  }

  // ---- The address and id indexes ---------------------------------------

  /** Each index entry leads to a point that carries that very address or id. */
  ghost predicate Coherent(s: Store)
    requires Indexed(s)
  {
    && (forall a <- s.addressToName :: s.points[s.addressToName[a]].address == a)
    && (forall i <- s.idToName :: s.points[s.idToName[i]].id == i)
  }

  /** A point whose name is taken again later also has its address, and its id, taken
      again later. Distinct names are the plain case. */
  ghost predicate NamesSettleKeys(points: seq<Point>) {
    forall i, j :: 0 <= i < j < |points| && points[i].name == points[j].name ==>
      && (points[i].address != "" ==> AddressTakenAfter(points, i))
      && (points[i].id != "" ==> IdTakenAfter(points, i))
  }

  ghost predicate AddressTakenAfter(points: seq<Point>, i: nat)
    requires i < |points|
  {
    exists k :: i < k < |points| && points[k].address == points[i].address
  }

  ghost predicate IdTakenAfter(points: seq<Point>, i: nat)
    requires i < |points|
  {
    exists k :: i < k < |points| && points[k].id == points[i].id
  }

  /** The table holds, under each name, the last point of that name. */
  lemma {:induction false} LastNamed(points: seq<Point>, i: nat) returns (l: nat)
    requires i < |points|
    ensures i <= l < |points| && points[l].name == points[i].name
    ensures points[l].name in Table(points).points && Table(points).points[points[l].name] == points[l]
  {
    var n := |points| - 1;
    if points[n].name == points[i].name {
      l := n;
    } else {
      l := LastNamed(points[..n], i);
    }
  }

  /** The address index names, for each address, the last point with it. */
  lemma {:induction false} LastAddressed(points: seq<Point>, a: string) returns (l: nat)
    requires a in Table(points).addressToName
    ensures l < |points| && points[l].address == a != "" && !AddressTakenAfter(points, l)
    ensures Table(points).addressToName[a] == points[l].name
  {
    var n := |points| - 1;
    if points[n].address == a && a != "" {
      l := n;
    } else {
      l := LastAddressed(points[..n], a);
      assert forall k :: l < k < n ==> points[k] == points[..n][k];
    }
  }

  lemma {:induction false} LastIdentified(points: seq<Point>, id: string) returns (l: nat)
    requires id in Table(points).idToName
    ensures l < |points| && points[l].id == id != "" && !IdTakenAfter(points, l)
    ensures Table(points).idToName[id] == points[l].name
  {
    var n := |points| - 1;
    if points[n].id == id && id != "" {
      l := n;
    } else {
      l := LastIdentified(points[..n], id);
      assert forall k :: l < k < n ==> points[k] == points[..n][k];
    }
  }

  lemma {:induction false} KeysAreIndexed(points: seq<Point>, i: nat)
    requires i < |points|
    ensures points[i].address != "" ==> points[i].address in Table(points).addressToName
    ensures points[i].id != "" ==> points[i].id in Table(points).idToName
  {
    var n := |points| - 1;
    if i < n {
      KeysAreIndexed(points[..n], i);
    }
  }

  lemma {:induction false} SettledIsCoherent(points: seq<Point>)
    requires Indexed(Table(points)) && NamesSettleKeys(points)
    ensures Coherent(Table(points))
  {
    var s := Table(points);
    forall a | a in s.addressToName
      ensures s.points[s.addressToName[a]].address == a
    {
      var l := LastAddressed(points, a);
      var m := LastNamed(points, l);
    }
    forall id | id in s.idToName
      ensures s.points[s.idToName[id]].id == id
    {
      var l := LastIdentified(points, id);
      var m := LastNamed(points, l);
    }
  }

  lemma {:induction false} CoherentSettlesAddress(points: seq<Point>, i: nat, j: nat)
    requires Indexed(Table(points)) && Coherent(Table(points))
    requires i < j < |points| && points[i].name == points[j].name && points[i].address != ""
    ensures AddressTakenAfter(points, i)
  {
    KeysAreIndexed(points, i);
    var l := LastAddressed(points, points[i].address);
    var m := LastNamed(points, j);
    assert i < (if l > i then l else m);
  }

  lemma {:induction false} CoherentSettlesId(points: seq<Point>, i: nat, j: nat)
    requires Indexed(Table(points)) && Coherent(Table(points))
    requires i < j < |points| && points[i].name == points[j].name && points[i].id != ""
    ensures IdTakenAfter(points, i)
  {
    KeysAreIndexed(points, i);
    var l := LastIdentified(points, points[i].id);
    var m := LastNamed(points, j);
    assert i < (if l > i then l else m);
  }

  lemma {:induction false} CoherentIsSettled(points: seq<Point>)
    requires Indexed(Table(points)) && Coherent(Table(points))
    ensures NamesSettleKeys(points)
  {
    forall i, j | 0 <= i < j < |points| && points[i].name == points[j].name
      ensures points[i].address != "" ==> AddressTakenAfter(points, i)
      ensures points[i].id != "" ==> IdTakenAfter(points, i)
    {
      if points[i].address != "" {
        CoherentSettlesAddress(points, i, j);
      }
      if points[i].id != "" {
        CoherentSettlesId(points, i, j);
      }
    }
  }

  /** When the two indexes can be trusted, told from the configuration alone. */
  lemma {:induction false} CoherentIff(device: string, entries: seq<Entry>)
    ensures Indexed(Configured(device, entries))
    ensures Coherent(Configured(device, entries)) <==> NamesSettleKeys(Made(device, entries))
  {
    var points := Made(device, entries);
    TableIsIndexed(points);
    if Coherent(Table(points)) {
      CoherentIsSettled(points);
    } else if NamesSettleKeys(points) {
      SettledIsCoherent(points);
    }
  }

  /** Runs neither mend nor break the indexes. */
  lemma {:induction false} CoherenceIsKept(device: string, entries: seq<Entry>, ops: seq<Op>)
    ensures Indexed(Configured(device, entries))
    ensures Coherent(DoAll(Configured(device, entries), ops)) <==> NamesSettleKeys(Made(device, entries))
  {
    CoherentIff(device, entries);
    RunEvolves(Configured(device, entries), ops);
  }

  /** A repeated name can break the address index: the earlier address still leads to
      the name, whose point now carries the later one. */
  lemma RepeatedNameBreaksIndex()
    ensures var e := Entry(Missing, Given("t"), Given("1"), Missing, Missing, None, None, true);
      var s := Configured("", [e, e.(address := Given("2"))]);
      Indexed(s) && !Coherent(s)
  {
    var e := Entry(Missing, Given("t"), Given("1"), Missing, Missing, None, None, true);
    var points := Made("", [e, e.(address := Given("2"))]);
    CoherentIff("", [e, e.(address := Given("2"))]);
    assert "1" != "2";
    assert !AddressTakenAfter(points, 0);
  }
}
