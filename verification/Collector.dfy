/** One collection cycle of the gateway: read each function group with retries, convert
    the answers, and merge them under the configured point names. */
module Collector {
  import opened Dynamic
  import opened Words
  import opened FormatParser
  import Formats

  datatype PointMapping = PointMapping(name: string, address: string, kind: string, transform: string, format: string)

  /** A driver's answer for one point id. */
  datatype Reading = Reading(id: string, value: Value)

  type Values = map<string, Value>

  /** The floating-point steps of the Type conversion, on bit patterns: rounding to two
      decimals as a float64, rounding to an int, and reading a number out of a text. */
  datatype Arithmetic = Arithmetic(cents32: nat -> nat, cents64: nat -> nat, centsOfInt: int -> nat,
                                   whole32: nat -> int, whole64: nat -> int, number: string -> Option<nat>)

  // ---- Conversion -------------------------------------------------------

  function WordBytes(words: seq<uint16>): seq<byte> {
    if words == [] then [] else PutWord(words[0]) + WordBytes(words[1..])
  }

  /** What the loop makes of a raw value before it is decoded. */
  function Widened(format: string, val: Value): Value {
    var upper := Formats.ToUpper(format);
    if Formats.HasPrefix(upper, "FLOAT") then
      match val
      case WordSlice(ws) =>
        if |ws| == 2 then Bytes(WordBytes(ws))
        else if |ws| == 1 then Bytes(PutWord(ws[0]) + [0, 0])
        else val
      case Uint32(n) => Bytes(ToBE(n, 4))
      case Uint16(w) => Bytes(PutWord(w) + [0, 0])
      case _ => val
    else if Formats.HasPrefix(upper, "DOUBLE") && val.WordSlice? && |val.words| == 4 then Bytes(WordBytes(val.words))
    else val
  }

  /** Widening and decoding; when decoding fails the widened value stays. */
  function Decoded(format: string, val: Value): Value {
    if format == "" then val else
      var (parsed, failed) := ParseAndCast(format, Widened(format, val));
      if failed then Widened(format, val) else parsed
  }

  /** The conversion by Type: only "float" and "int" do anything, and "float" leaves
      int16 and uint as they are. */
  function Cast(kind: string, val: Value, a: Arithmetic): Value {
    var lower := Formats.ToLower(kind);
    if lower == "float" then
      match val
      case Float32(bits) => Float64((a.cents32)(bits))
      case Float64(bits) => Float64((a.cents64)(bits))
      case GoInt(n) => Float64((a.centsOfInt)(n))
      case Int32(n) => Float64((a.centsOfInt)(n))
      case Int64(n) => Float64((a.centsOfInt)(n))
      case Uint16(n) => Float64((a.centsOfInt)(n))
      case Uint32(n) => Float64((a.centsOfInt)(n))
      case Uint64(n) => Float64((a.centsOfInt)(n))
      case Str(s) => (match (a.number)(s) case None => val case Some(bits) => Float64((a.cents64)(bits)))
      case _ => val
    else if lower == "int" then
      match val
      case Float32(bits) => GoInt((a.whole32)(bits))
      case Float64(bits) => GoInt((a.whole64)(bits))
      case Str(s) => (match (a.number)(s) case None => val case Some(bits) => GoInt((a.whole64)(bits)))
      case _ => val
    else val
  }

  /** The whole conversion of a matched value. The Transform expression is evaluated
      too, but its result is bound to a new variable and lost. */
  function Convert(p: PointMapping, val: Value, a: Arithmetic): Value {
    Cast(p.kind, Decoded(p.format, val), a)
  }

  predicate IsNumber(v: Value) {
    v.GoInt? || v.Int32? || v.Int64? || v.Uint16? || v.Uint32? || v.Uint64?
  }

  function IntegerIn(v: Value): int
    requires IsNumber(v)
  {
    match v
    case GoInt(n) => n
    case Int32(n) => n
    case Int64(n) => n
    case Uint16(n) => n
    case Uint32(n) => n
    case Uint64(n) => n
  }

  /** What the Type does to a value, by its dynamic type. */
  lemma CastIs(kind: string, v: Value, a: Arithmetic)
    ensures var lower, w := Formats.ToLower(kind), Cast(kind, v, a);
      && (lower == "float" && v.Float32? ==> w == Float64((a.cents32)(v.bits32)))
      && (lower == "float" && v.Float64? ==> w == Float64((a.cents64)(v.bits64)))
      && (lower == "float" && IsNumber(v) ==> w == Float64((a.centsOfInt)(IntegerIn(v))))
      && (lower == "int" && v.Float32? ==> w == GoInt((a.whole32)(v.bits32)))
      && (lower == "int" && v.Float64? ==> w == GoInt((a.whole64)(v.bits64)))
      && (v.Str? && (a.number)(v.s).Some? ==>
            && (lower == "float" ==> w == Float64((a.cents64)((a.number)(v.s).value)))
            && (lower == "int" ==> w == GoInt((a.whole64)((a.number)(v.s).value))))
      && (v.Str? && (a.number)(v.s) == None ==> w == v)
      && (lower != "float" && lower != "int" ==> w == v)
      && (lower == "int" && !v.Float32? && !v.Float64? && !v.Str? ==> w == v)
      && (!v.Float32? && !v.Float64? && !v.Str? && !IsNumber(v) ==> w == v)
  {
    assert "float"[0] != "int"[0];
  }

  /** What each raw value is widened to: under a Float format one or two words, or a
      uint32, to four bytes, under a Double format four words to eight, high byte first;
      anything else stays. */
  lemma WidenedIs(format: string, v: Value)
    ensures var upper, w := Formats.ToUpper(format), Widened(format, v);
      && ("FLOAT" <= upper && v.Uint16? ==> w == Bytes([v.u16 / 256, v.u16 % 256, 0, 0]))
      && ("FLOAT" <= upper && v.WordSlice? && |v.words| == 1 ==>
            w == Bytes([v.words[0] / 256, v.words[0] % 256, 0, 0]))
      && ("FLOAT" <= upper && v.WordSlice? && |v.words| == 2 ==>
            w == Bytes([v.words[0] / 256, v.words[0] % 256, v.words[1] / 256, v.words[1] % 256]))
      && ("FLOAT" <= upper && v.Uint32? && v.u32 < 0x1_0000_0000 ==>
            w.Bytes? && |w.bytes| == 4 && BE(w.bytes) == v.u32)
      && ("DOUBLE" <= upper && v.WordSlice? && |v.words| == 4 ==>
            w == Bytes([v.words[0] / 256, v.words[0] % 256, v.words[1] / 256, v.words[1] % 256,
                        v.words[2] / 256, v.words[2] % 256, v.words[3] / 256, v.words[3] % 256]))
      && (v.WordSlice? && "FLOAT" <= upper && |v.words| !in {1, 2} ==> w == v)
      && (v.WordSlice? && "DOUBLE" <= upper && |v.words| != 4 ==> w == v)
      && (!("FLOAT" <= upper) && !("DOUBLE" <= upper) ==> w == v)
      && (!("FLOAT" <= upper) && !v.WordSlice? ==> w == v)
      && (!v.Uint16? && !v.Uint32? && !v.WordSlice? ==> w == v)
  {
    NotBothPrefixes(Formats.ToUpper(format));
    if v.WordSlice? && |v.words| == 2 {
      TwoWords(v.words);
    }
    if v.WordSlice? && |v.words| == 4 {
      FourWords(v.words);
    }
    if v.Uint32? && v.u32 < 0x1_0000_0000 {
      PowersOf256();
      BEOfToBE(v.u32, 4);
    }
  }

  // ---- Merging ----------------------------------------------------------

  /** The point a reading goes to: the first one with that address or name. */
  function FirstMatch(points: seq<PointMapping>, id: string): Option<PointMapping> {
    if points == [] then None
    else if id == points[0].address || id == points[0].name then Some(points[0])
    else FirstMatch(points[1..], id)
  }

  function Blanked(all: Values, points: seq<PointMapping>): Values {
    if points == [] then all
    else Blanked(all, points[..|points| - 1])[points[|points| - 1].name := Nil]
  }

  function MergeOne(all: Values, points: seq<PointMapping>, r: Reading, a: Arithmetic): Values {
    match FirstMatch(points, r.id)
    case None => all
    case Some(p) => all[p.name := Convert(p, r.value, a)]
  }

  function MergeAll(all: Values, points: seq<PointMapping>, values: seq<Reading>, a: Arithmetic): Values {
    if values == [] then all
    else MergeOne(MergeAll(all, points, values[..|values| - 1], a), points, values[|values| - 1], a)
  }

  /** What one function group leaves; a failed read merges nothing. */
  function MergeGroup(all: Values, points: seq<PointMapping>, values: seq<Reading>, a: Arithmetic): Values {
    MergeAll(Blanked(all, points), points, values, a)
  }

  method WidenValue(format: string, value: Value) returns (val: Value)
    ensures val == Widened(format, value)
  {
    val := value;
    var upper := Formats.ToUpper(format);
    if val.WordSlice? && |val.words| == 2 && Formats.HasPrefix(upper, "FLOAT") {
      TwoWords(val.words);
      val := Bytes(PutWord(val.words[0]) + PutWord(val.words[1]));
    }
    if val.WordSlice? && |val.words| == 4 && Formats.HasPrefix(upper, "DOUBLE") {
      FourWords(val.words);
      NotBothPrefixes(upper);
      val := Bytes(PutWord(val.words[0]) + PutWord(val.words[1]) + PutWord(val.words[2]) + PutWord(val.words[3]));
    }
    if val.Uint32? && Formats.HasPrefix(upper, "FLOAT") {
      val := Bytes(ToBE(val.u32, 4));
    }
    if Formats.HasPrefix(upper, "FLOAT") {
      if val.Uint16? {
        val := Bytes(PutWord(val.u16) + [0, 0]);
      } else if val.WordSlice? && |val.words| == 1 {
        val := Bytes(PutWord(val.words[0]) + [0, 0]);
      }
    }
  }

  method CastValue(kind: string, value: Value, a: Arithmetic) returns (val: Value)
    ensures val == Cast(kind, value, a)
  {
    val := value;
    var lower := Formats.ToLower(kind);
    if lower == "float" {
      match val {
        case Float32(bits) => val := Float64((a.cents32)(bits));
        case Float64(bits) => val := Float64((a.cents64)(bits));
        case GoInt(n) => val := Float64((a.centsOfInt)(n));
        case Int32(n) => val := Float64((a.centsOfInt)(n));
        case Int64(n) => val := Float64((a.centsOfInt)(n));
        case Uint16(n) => val := Float64((a.centsOfInt)(n));
        case Uint32(n) => val := Float64((a.centsOfInt)(n));
        case Uint64(n) => val := Float64((a.centsOfInt)(n));
        case Str(s) =>
          var f := (a.number)(s);
          if f.Some? {
            val := Float64((a.cents64)(f.value));
          }
        case _ =>
      }
    }
    if lower == "int" {
      match val {
        case Float32(bits) => val := GoInt((a.whole32)(bits));
        case Float64(bits) => val := GoInt((a.whole64)(bits));
        case Str(s) =>
          var f := (a.number)(s);
          if f.Some? {
            val := GoInt((a.whole64)(f.value));
          }
        case _ =>
      }
    }
  }

  method ConvertValue(p: PointMapping, value: Value, a: Arithmetic) returns (val: Value)
    ensures val == Convert(p, value, a)
  {
    val := WidenValue(p.format, value);
    if p.format != "" {
      var (val2, failed) := ParseAndCast(p.format, val);
      if !failed {
        val := val2;
      }
    } else {
      assert Formats.ToUpper("") == "";
    }
    val := CastValue(p.kind, val, a);
  }

  lemma {:induction false} TwoWords(ws: seq<uint16>)
    requires |ws| == 2
    ensures WordBytes(ws) == PutWord(ws[0]) + PutWord(ws[1])
  {
    assert ws[1..] == [ws[1]];
    assert WordBytes([ws[1]]) == PutWord(ws[1]);
  }

  lemma {:induction false} FourWords(ws: seq<uint16>)
    requires |ws| == 4
    ensures WordBytes(ws) == PutWord(ws[0]) + PutWord(ws[1]) + PutWord(ws[2]) + PutWord(ws[3])
  {
    assert ws[1..][1..] == [ws[2], ws[3]];
    assert ws[1..][1..][1..] == [ws[3]];
    assert WordBytes([ws[3]]) == PutWord(ws[3]);
    assert WordBytes([ws[2], ws[3]]) == PutWord(ws[2]) + PutWord(ws[3]);
  }

  lemma NotBothPrefixes(s: string)
    ensures !(Formats.HasPrefix(s, "FLOAT") && Formats.HasPrefix(s, "DOUBLE"))
  {
    if Formats.HasPrefix(s, "FLOAT") {
      assert s[0] == "FLOAT"[0];
    }
    if Formats.HasPrefix(s, "DOUBLE") {
      assert s[0] == "DOUBLE"[0];
    }
  }

  /** The nested loops over one group's answers. */
  method MergeValues(all: Values, points: seq<PointMapping>, values: seq<Reading>, a: Arithmetic)
    returns (allPointValues: Values)
    ensures allPointValues == MergeGroup(all, points, values, a)
  {
    allPointValues := all;
    for i := 0 to |points|
      invariant allPointValues == Blanked(all, points[..i])
    {
      assert points[..i + 1][..i] == points[..i];
      allPointValues := allPointValues[points[i].name := Nil];
    }
    assert points[..|points|] == points;
    ghost var blank := allPointValues;
    for i := 0 to |values|
      invariant allPointValues == MergeAll(blank, points, values[..i], a)
    {
      var v := values[i];
      ghost var before := allPointValues;
      assert values[..i + 1][..i] == values[..i];
      var j := 0;
      while j < |points|
        invariant 0 <= j <= |points|
        invariant allPointValues == before
        invariant FirstMatch(points, v.id) == FirstMatch(points[j..], v.id)
      {
        var p := points[j];
        if v.id == p.address || v.id == p.name {
          var val := ConvertValue(p, v.value, a);
          allPointValues := allPointValues[p.name := val];
          break;
        }
        assert points[j..][1..] == points[j + 1..];
        j := j + 1;
      }
      assert allPointValues == MergeOne(before, points, v, a);
    }
    assert values[..|values|] == values;
  }

  // ---- Reading with retries ---------------------------------------------

  /** readWithRetry: the first success among maxRetry attempts. Only when all fail is
      there a reconnect, and no attempt follows it. With maxRetry below 1 nothing is
      read and no error reported. */
  method ReadWithRetry(read: nat -> Option<seq<Reading>>, maxRetry: int)
    returns (values: seq<Reading>, failed: bool, attempts: nat, reconnects: nat)
    ensures attempts <= if maxRetry > 0 then maxRetry else 0
    ensures failed <==> maxRetry >= 1 && forall i :: 0 <= i < maxRetry ==> read(i) == None
    ensures failed ==> values == [] && attempts == maxRetry && reconnects == 1
    ensures !failed && maxRetry >= 1 ==>
              && attempts >= 1 && reconnects == 0
              && read(attempts - 1) == Some(values)
              && forall i :: 0 <= i < attempts - 1 ==> read(i) == None
    ensures maxRetry < 1 ==> values == [] && attempts == 0 && reconnects == 0
  {
    values, failed, attempts, reconnects := [], false, 0, 0;
    var retry := 1;
    while retry <= maxRetry
      invariant retry == attempts + 1 && attempts <= if maxRetry > 0 then maxRetry else 0
      invariant values == [] && failed == (attempts > 0)
      invariant forall i :: 0 <= i < attempts ==> read(i) == None
      invariant reconnects == if maxRetry >= 1 && attempts == maxRetry then 1 else 0
      decreases maxRetry - retry
    {
      var answer := read(attempts);
      attempts := attempts + 1;
      if answer.Some? {
        return answer.value, false, attempts, 0;
      }
      failed := true;
      if retry == maxRetry {
        reconnects := reconnects + 1;
      }
      retry := retry + 1;
    }
  }
}
