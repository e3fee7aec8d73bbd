/** The BACnet client's point table: one table of points by name, reached by name,
    by address and by id, with typed writes. */
module PointStore {
  import opened Dynamic
  import opened Words

  /** PropertyValueType */
  datatype ValueType =
    | TypeNull | TypeBoolean | TypeUnsignedInt | TypeSignedInt | TypeReal | TypeDouble | TypeOctetString
    | TypeCharacterString | TypeBitString | TypeEnumerated | TypeDate | TypeTime | TypeObjectID

  /** 42.0 as a float64 */
  const FORTY_TWO: Value := Float64(0x4045_0000_0000_0000)

  datatype Point = Point(id: string, name: string, address: string, kind: string, transform: string,
                         value: Value, valueType: ValueType, writable: bool)

  /** A configuration field after fmt.Sprintf("%v"): absent, present but nil, or text. */
  datatype Field = Missing | Null | Given(text: string)

  datatype Entry = Entry(id: Field, name: Field, address: Field, kind: Field, transform: Field,
                         initValue: Option<Value>, valueType: Option<string>, writable: bool)

  datatype Store = Store(connected: bool, points: map<string, Point>,
                         idToName: map<string, string>, addressToName: map<string, string>)

  const UNOPENED := Store(false, map[], map[], map[])

  /** An expression on a value; None is an error. */
  type Evaluator = (string, Value) -> Option<Value>

  datatype Reading = Reading(id: string, value: Value, good: bool)

  // ---- Configuration ----------------------------------------------------

  function Shown(f: Field): string {
    match f
    case Missing => ""
    case Null => "<nil>"
    case Given(text) => text
  }

  function TypeNamed(name: Option<string>): ValueType {
    match name
    case None => TypeNull
    case Some(t) =>
      if t == "REAL" then TypeReal
      else if t == "INTEGER" then TypeSignedInt
      else if t == "BOOLEAN" then TypeBoolean
      else if t == "ENUMERATED" then TypeEnumerated
      else if t == "CHARACTERSTRING" then TypeCharacterString
      else if t == "OCTETSTRING" then TypeOctetString
      else if t == "BITSTRING" then TypeBitString
      else if t == "OBJECTID" then TypeObjectID
      else TypeNull
  }

  function PointOf(device: string, e: Entry): Point {
    var id :=
      if e.id != Missing then Shown(e.id)
      else if device != "" && e.name.Given? then device + "." + e.name.text
      else "";
    Point(id, Shown(e.name), Shown(e.address), Shown(e.kind), Shown(e.transform),
          if e.initValue.Some? then e.initValue.value else Nil, TypeNamed(e.valueType), e.writable)
  }

  function AddPoint(s: Store, p: Point): Store {
    Store(s.connected, s.points[p.name := p],
          if p.id != "" then s.idToName[p.id := p.name] else s.idToName,
          if p.address != "" then s.addressToName[p.address := p.name] else s.addressToName)
  }

  /** The table and both indexes after these points, later ones winning. */
  function Table(points: seq<Point>): Store {
    if points == [] then Store(true, map[], map[], map[])
    else AddPoint(Table(points[..|points| - 1]), points[|points| - 1])
  }

  function Made(device: string, entries: seq<Entry>): (points: seq<Point>)
    ensures |points| == |entries|
    ensures forall i :: 0 <= i < |entries| ==> points[i] == PointOf(device, entries[i])
  {
    seq(|entries|, i requires 0 <= i < |entries| => PointOf(device, entries[i]))
  }

  function Configured(device: string, entries: seq<Entry>): Store {
    Table(Made(device, entries))
  }

  // ---- Lookup -----------------------------------------------------------

  /** Every key of the table is its point's name, and both indexes name points. */
  ghost predicate Indexed(s: Store) {
    && (forall k <- s.points :: s.points[k].name == k)
    && (forall a <- s.addressToName :: s.addressToName[a] in s.points)
    && (forall i <- s.idToName :: s.idToName[i] in s.points)
  }

  /** The point a key names: by name first, then by address, then by id. */
  function Resolve(s: Store, key: string): (name: Option<string>)
    requires Indexed(s)
    ensures name.Some? ==> name.value in s.points
  {
    if key in s.points then Some(key)
    else if key in s.addressToName then Some(s.addressToName[key])
    else if key in s.idToName then Some(s.idToName[key])
    else None
  }

  // ---- Reading ----------------------------------------------------------

  /** A point without a value reads as false or 42.0. */
  function OrDefault(p: Point): Value {
    if p.value != Nil then p.value else if p.kind == "bool" then Bool(false) else FORTY_TWO
  }

  function ReadPoint(p: Point, eval: Evaluator): Reading {
    var v := OrDefault(p);
    var r := if p.transform == "" then None else eval(p.transform, v);
    Reading(p.name, if r.Some? then r.value else v, true)
  }

  function ReadKey(s: Store, key: string, eval: Evaluator): Reading
    requires Indexed(s)
  {
    match Resolve(s, key)
    case None => Reading(key, Nil, false)
    case Some(name) => ReadPoint(s.points[name], eval)
  }

  /** ReadBatch; None is the error of a client that is not connected. */
  function ReadKeys(s: Store, keys: seq<string>, eval: Evaluator): (r: Option<seq<Reading>>)
    requires Indexed(s)
    ensures r.Some? <==> s.connected
    ensures r.Some? ==> |r.value| == |keys| && forall i :: 0 <= i < |keys| ==> r.value[i] == ReadKey(s, keys[i], eval)
  {
    if !s.connected then None
    else Some(seq(|keys|, i requires 0 <= i < |keys| => ReadKey(s, keys[i], eval)))
  }

  // ---- Writing ----------------------------------------------------------

  datatype Check = Accepted | Rejected | Panics

  function Require(ok: bool, value: Value): Check {
    if value == Nil then Panics else if ok then Accepted else Rejected
  }

  /** The switch on PropertyValueType. Asking for the kind of a nil value panics. */
  function CheckValue(t: ValueType, value: Value): Check {
    match t
    case TypeReal | TypeDouble => Require(value.Float64?, value)
    case TypeSignedInt | TypeEnumerated => Require(value.GoInt?, value)
    case TypeUnsignedInt => Require(value.Uint64?, value)
    case TypeBoolean => Require(value.Bool?, value)
    case TypeCharacterString | TypeDate | TypeTime => Require(value.Str?, value)
    case TypeOctetString => Require(value.Bytes?, value)
    case TypeBitString => Require(value.BoolSlice?, value)
    case TypeObjectID => if value.ObjectID? then Accepted else Rejected
    case TypeNull => Accepted
  }

  datatype WriteError = NotConnected | NotFound | NotWritable | WrongType | NilValue

  /** Write: the new store, or why nothing was written. */
  function WriteKey(s: Store, key: string, value: Value): (r: (Store, Option<WriteError>))
    requires Indexed(s)
  {
    if !s.connected then (s, Some(NotConnected))
    else
      match Resolve(s, key)
      case None => (s, Some(NotFound))
      case Some(name) =>
        var p := s.points[name];
        if !p.writable then (s, Some(NotWritable))
        else
          match CheckValue(p.valueType, value)
          case Rejected => (s, Some(WrongType))
          case Panics => (s, Some(NilValue))
          case Accepted => (s.(points := s.points[name := p.(value := value)]), None)
  }

  // ---- The client -------------------------------------------------------

  class BacnetClient {
    var connected: bool
    var points: map<string, Point>
    var idToName: map<string, string>
    var addressToName: map<string, string>

    ghost function Model(): Store
      reads this
    {
      Store(connected, points, idToName, addressToName)
    }

    constructor ()
      ensures Model() == UNOPENED && Indexed(Model())
    {
      connected := false;
      points, idToName, addressToName := map[], map[], map[];
    }

    method Init(device: string, entries: seq<Entry>)
      modifies this
      ensures Model() == Configured(device, entries)
      ensures Indexed(Model())
    {
      connected := true;
      points, idToName, addressToName := map[], map[], map[];
      ghost var made := Made(device, entries);
      for i := 0 to |entries|
        invariant Model() == Table(made[..i])
      {
        var pt := PointOf(device, entries[i]);
        points := points[pt.name := pt];
        if pt.id != "" {
          idToName := idToName[pt.id := pt.name];
        }
        if pt.address != "" {
          addressToName := addressToName[pt.address := pt.name];
        }
        assert made[..i + 1][..i] == made[..i];
      }
      assert made[..|made|] == made;
      TableIsIndexed(made);
    }

    method ReadBatch(keys: seq<string>, eval: Evaluator) returns (r: Option<seq<Reading>>)
      requires Indexed(Model())
      ensures r == ReadKeys(Model(), keys, eval)
    {
      if !connected {
        return None;
      }
      var result: seq<Reading> := [];
      for i := 0 to |keys|
        invariant |result| == i
        invariant forall k :: 0 <= k < i ==> result[k] == ReadKey(Model(), keys[k], eval)
      {
        var key := keys[i];
        var name := Find(key);
        if name == None {
          result := result + [Reading(key, Nil, false)];
          continue;
        }
        var pt := points[name.value];
        var val := pt.value;
        if val == Nil {
          val := if pt.kind == "bool" then Bool(false) else FORTY_TWO;
        }
        if pt.transform != "" {
          var v2 := eval(pt.transform, val);
          if v2.Some? {
            val := v2.value;
          }
        }
        result := result + [Reading(pt.name, val, true)];
      }
      r := Some(result);
      assert result == ReadKeys(Model(), keys, eval).value;
    }

    /** The lookup in Write and ReadBatch. */
    method Find(key: string) returns (name: Option<string>)
      requires Indexed(Model())
      ensures name == Resolve(Model(), key)
    {
      if key in points {
        name := Some(key);
      } else if key in addressToName {
        name := Some(addressToName[key]);
      } else if key in idToName {
        name := Some(idToName[key]);
      } else {
        name := None;
      }
    }

    method Write(key: string, value: Value) returns (error: Option<WriteError>)
      requires Indexed(Model())
      modifies this`points
      ensures (Model(), error) == WriteKey(old(Model()), key, value)
    {
      if !connected {
        return Some(NotConnected);
      }
      var name := Find(key);
      if name == None {
        return Some(NotFound);
      }
      var pt := points[name.value];
      if !pt.writable {
        return Some(NotWritable);
      }
      match CheckValue(pt.valueType, value) {
        case Rejected => return Some(WrongType);
        case Panics => return Some(NilValue);
        case Accepted =>
          points := points[name.value := pt.(value := value)];
          error := None;
      }
    }

    /** Read: every point once, in whatever order the map yields them. */
    method ReadAll() returns (r: Option<seq<Reading>>)
      requires Indexed(Model())
      ensures r.Some? <==> connected
      ensures r.Some? ==>
                && |r.value| == |points|
                && (forall i :: 0 <= i < |r.value| ==>
                      && r.value[i].id in points
                      && r.value[i] == Reading(r.value[i].id, OrDefault(points[r.value[i].id]), true))
                && (forall i, j :: 0 <= i < j < |r.value| ==> r.value[i].id != r.value[j].id)
    {
      if !connected {
        return None;
      }
      var result: seq<Reading> := [];
      var rest := points.Keys;
      while rest != {}
        invariant rest <= points.Keys && |result| + |rest| == |points.Keys|
        invariant forall i :: 0 <= i < |result| ==>
          && result[i].id in points.Keys - rest
          && result[i] == Reading(result[i].id, OrDefault(points[result[i].id]), true)
        invariant forall i, j :: 0 <= i < j < |result| ==> result[i].id != result[j].id
        decreases rest
      {
        var name :| name in rest;
        result := result + [Reading(name, OrDefault(points[name]), true)];
        rest := rest - {name};
      }
      r := Some(result);
    }

    method Close()
      modifies this`connected
      ensures Model() == old(Model()).(connected := false)
    {
      connected := false;
    }

    method Reconnect()
      modifies this`connected
      ensures Model() == old(Model()).(connected := true)
    {
      connected := true;
    }
  }

  lemma {:induction false} TableIsIndexed(points: seq<Point>)
    ensures Indexed(Table(points))
  {
    if points != [] {
      TableIsIndexed(points[..|points| - 1]);
    }
  }
}
