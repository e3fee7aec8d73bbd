/** The merge over whole groups, and the Modbus path from device to named values. */
module Gateway {
  import opened Dynamic
  import opened Words
  import opened FormatParser
  import opened Collector
  import Formats
  import opened Permutations
  import opened RegisterPlan
  import opened RegisterBatch
  import opened ModbusBatch

  // ---- Names ------------------------------------------------------------

  function Names(points: seq<PointMapping>): set<string> {
    set p <- points :: p.name
  }

  lemma {:induction false} BlankedNames(all: Values, points: seq<PointMapping>)
    ensures Blanked(all, points).Keys == all.Keys + Names(points)
    ensures forall n :: n in Names(points) ==> n in Blanked(all, points) && Blanked(all, points)[n] == Nil
    ensures forall n :: n in all && n !in Names(points) ==> n in Blanked(all, points) && Blanked(all, points)[n] == all[n]
  {
    if points != [] {
      var before, p := points[..|points| - 1], points[|points| - 1];
      BlankedNames(all, before);
      assert points == before + [p];
      assert Names(points) == Names(before) + {p.name};
    }
  }

  lemma {:induction false} FirstMatchIsConfigured(points: seq<PointMapping>, id: string)
    ensures FirstMatch(points, id).Some? ==> FirstMatch(points, id).value in points
  {
    if points != [] && id != points[0].address && id != points[0].name {
      FirstMatchIsConfigured(points[1..], id);
    }
  }

  /** Merging adds no name and touches no name outside the group. */
  lemma {:induction false} MergeStaysInGroup(all: Values, points: seq<PointMapping>, values: seq<Reading>, a: Arithmetic)
    requires Names(points) <= all.Keys
    ensures var merged := MergeAll(all, points, values, a);
      && merged.Keys == all.Keys
      && forall n :: n in all && n !in Names(points) ==> merged[n] == all[n]
  {
    if values != [] {
      MergeStaysInGroup(all, points, values[..|values| - 1], a);
      FirstMatchIsConfigured(points, values[|values| - 1].id);
    }
  }

  /** After a group every configured name is a key, whatever was answered; names of
      other groups keep their values; and a group whose read failed has only nils. */
  lemma {:induction false} GroupNames(all: Values, points: seq<PointMapping>, values: seq<Reading>, a: Arithmetic)
    ensures var merged := MergeGroup(all, points, values, a);
      && merged.Keys == all.Keys + Names(points)
      && (forall n :: n in all && n !in Names(points) ==> merged[n] == all[n])
      && (values == [] ==> forall n <- Names(points) :: merged[n] == Nil)
  {
    BlankedNames(all, points);
    MergeStaysInGroup(Blanked(all, points), points, values, a);
  }

  // ---- Which point gets which answer ------------------------------------

  /** No two points share a name, and no point is named like another's address; points
      may share an address. */
  ghost predicate NamesAreOwn(points: seq<PointMapping>) {
    forall i, j :: 0 <= i < |points| && 0 <= j < |points| && i != j ==>
      points[i].name != points[j].name && points[i].name != points[j].address
  }

  /** No earlier point is on the same address. */
  predicate IsFirst(points: seq<PointMapping>, k: nat)
    requires k < |points|
  {
    forall i :: 0 <= i < k ==> points[i].address != points[k].address
  }

  /** An answer under an address goes to the first point on it. */
  lemma {:induction false} AddressMatch(points: seq<PointMapping>, i: nat) returns (h: nat)
    requires i < |points| && NamesAreOwn(points)
    ensures h <= i && points[h].address == points[i].address && IsFirst(points, h)
    ensures FirstMatch(points, points[i].address) == Some(points[h])
  {
    if points[0].address == points[i].address {
      h := 0;
    } else {
      var g := AddressMatch(points[1..], i - 1);
      h := g + 1;
      assert forall m :: 1 <= m < |points| ==> points[m] == points[1..][m - 1];
    }
  }

  /** Every point is reached by the answers under its address exactly when no two points
      share one. */
  lemma {:induction false} EachReachedIff(points: seq<PointMapping>)
    requires NamesAreOwn(points)
    ensures (forall k :: 0 <= k < |points| ==> FirstMatch(points, points[k].address) == Some(points[k]))
       <==> forall k :: 0 <= k < |points| ==> IsFirst(points, k)
  {
    forall k | 0 <= k < |points|
      ensures FirstMatch(points, points[k].address) == Some(points[k]) <==> IsFirst(points, k)
    {
      var h := AddressMatch(points, k);
      assert h != k ==> points[h].name != points[k].name;
    }
  }

  /** The reading answers, under its address, the point expected to get that value. */
  ghost predicate IsAnswer(r: Reading, points: seq<PointMapping>, expected: seq<Value>)
    requires |expected| == |points|
  {
    exists i :: 0 <= i < |points| && r == Reading(points[i].address, expected[i])
  }

  /** Points on one address expect the same value. */
  ghost predicate Answers(values: seq<Reading>, points: seq<PointMapping>, expected: seq<Value>) {
    && |expected| == |points|
    && (forall i, j :: 0 <= i < j < |points| && points[i].address == points[j].address ==> expected[i] == expected[j])
    && forall t :: 0 <= t < |values| ==> IsAnswer(values[t], points, expected)
  }

  ghost predicate Answered(values: seq<Reading>, address: string) {
    exists t :: 0 <= t < |values| && values[t].id == address
  }

  lemma AnsweredNext(before: seq<Reading>, r: Reading, address: string)
    ensures Answered(before + [r], address) <==> Answered(before, address) || r.id == address
  {
    if Answered(before, address) {
      var t :| 0 <= t < |before| && before[t].id == address;
      assert (before + [r])[t].id == address;
    }
    if r.id == address {
      assert (before + [r])[|before|].id == address;
    }
  }

  /** One answer moves the name of the first point on its address and no other. */
  lemma MergeOneGivesOwn(all: Values, points: seq<PointMapping>, r: Reading, expected: seq<Value>, a: Arithmetic, k: nat)
    requires k < |points| && Answers([r], points, expected) && NamesAreOwn(points)
    requires points[k].name in all
    ensures var merged := MergeOne(all, points, r, a);
      && points[k].name in merged
      && merged[points[k].name]
         == if r.id == points[k].address && IsFirst(points, k) then Convert(points[k], expected[k], a)
            else all[points[k].name]
  {
    assert IsAnswer([r][0], points, expected);
    var i :| 0 <= i < |points| && r == Reading(points[i].address, expected[i]);
    var h := AddressMatch(points, i);
    assert h != k ==> points[h].name != points[k].name;
    assert expected[h] == expected[i];
  }

  /** Answers in any order, each possibly repeated: a name holds the conversion of its
      own answer if the point is the first on its address, and nil if it is not or had
      no answer. */
  lemma {:induction false} MergeGivesOwn(all: Values, points: seq<PointMapping>, values: seq<Reading>,
                                         expected: seq<Value>, a: Arithmetic, k: nat)
    requires k < |points| && NamesAreOwn(points) && Answers(values, points, expected)
    ensures var merged := MergeGroup(all, points, values, a);
      && points[k].name in merged
      && merged[points[k].name]
         == if Answered(values, points[k].address) && IsFirst(points, k) then Convert(points[k], expected[k], a)
            else Nil
    decreases |values|
  {
    if values == [] {
      BlankedNames(all, points);
      assert points[k] in points;
    } else {
      var before, r := values[..|values| - 1], values[|values| - 1];
      MergeGivesOwn(all, points, before, expected, a, k);
      MergeOneGivesOwn(MergeGroup(all, points, before, a), points, r, expected, a, k);
      assert values == before + [r];
      AnsweredNext(before, r, points[k].address);
    }
  }

  predicate IsMatch(p: PointMapping, id: string) {
    id == p.address || id == p.name
  }

  /** An answer goes to the first point that has its id as address or name, if any has. */
  lemma {:induction false} FirstMatchIff(points: seq<PointMapping>, id: string, k: nat)
    requires k < |points| && IsMatch(points[k], id) && forall i :: 0 <= i < k ==> !IsMatch(points[i], id)
    ensures FirstMatch(points, id) == Some(points[k])
  {
    if k > 0 {
      FirstMatchIff(points[1..], id, k - 1);
    }
  }

  lemma {:induction false} NoMatchIff(points: seq<PointMapping>, id: string)
    ensures FirstMatch(points, id) == None <==> forall i :: 0 <= i < |points| ==> !IsMatch(points[i], id)
  {
    if points != [] && !IsMatch(points[0], id) {
      NoMatchIff(points[1..], id);
      assert forall i :: 1 <= i < |points| ==> points[i] == points[1..][i - 1];
    }
  }

  predicate GoesTo(points: seq<PointMapping>, r: Reading, name: string) {
    FirstMatch(points, r.id).Some? && FirstMatch(points, r.id).value.name == name
  }

  lemma OtherAnswerKeeps(all: Values, points: seq<PointMapping>, r: Reading, a: Arithmetic, name: string)
    requires name in all && !GoesTo(points, r, name)
    ensures name in MergeOne(all, points, r, a) && MergeOne(all, points, r, a)[name] == all[name]
  {
  }

  /** For any answers at all, a name none of them goes to is nil. */
  lemma {:induction false} NoAnswerIsNil(all: Values, points: seq<PointMapping>, values: seq<Reading>, a: Arithmetic,
                                         name: string)
    requires name in Names(points) && forall t :: 0 <= t < |values| ==> !GoesTo(points, values[t], name)
    ensures var merged := MergeGroup(all, points, values, a); name in merged && merged[name] == Nil
    decreases |values|
  {
    if values == [] {
      BlankedNames(all, points);
    } else {
      var n := |values| - 1;
      NoAnswerIsNil(all, points, values[..n], a, name);
      OtherAnswerKeeps(MergeGroup(all, points, values[..n], a), points, values[n], a, name);
    }
  }

  /** And of several that go to one name the last one wins. */
  lemma {:induction false} LastAnswerWins(all: Values, points: seq<PointMapping>, values: seq<Reading>, a: Arithmetic,
                                          name: string, t: nat)
    requires t < |values| && GoesTo(points, values[t], name)
    requires forall u :: t < u < |values| ==> !GoesTo(points, values[u], name)
    ensures var merged := MergeGroup(all, points, values, a);
      name in merged && merged[name] == Convert(FirstMatch(points, values[t].id).value, values[t].value, a)
    decreases |values|
  {
    var n := |values| - 1;
    if t < n {
      LastAnswerWins(all, points, values[..n], a, name, t);
      OtherAnswerKeeps(MergeGroup(all, points, values[..n], a), points, values[n], a, name);
    }
  }

  // ---- Shared addresses -------------------------------------------------

  lemma {:induction false} EarlierMatchWins(points: seq<PointMapping>, i: nat, id: string)
    requires i < |points| && (id == points[i].address || id == points[i].name)
    ensures FirstMatch(points, id).Some? && exists h :: 0 <= h <= i && FirstMatch(points, id) == Some(points[h])
  {
    if id != points[0].address && id != points[0].name {
      EarlierMatchWins(points[1..], i - 1, id);
      var h :| 0 <= h <= i - 1 && FirstMatch(points[1..], id) == Some(points[1..][h]);
      assert points[h + 1] == points[1..][h];
    }
  }

  /** Of two points on one address only the first gets a value: the other's name stays
      nil, unless the driver answers under that name itself. */
  lemma {:induction false} SecondOnAddressStaysNil(all: Values, points: seq<PointMapping>, values: seq<Reading>,
                                                   a: Arithmetic, i: nat, j: nat)
    requires i < j < |points| && points[i].address == points[j].address
    requires forall h :: 0 <= h < |points| && h != j ==> points[h].name != points[j].name
    requires forall t :: 0 <= t < |values| ==> values[t].id != points[j].name
    ensures var merged := MergeGroup(all, points, values, a);
      points[j].name in merged && merged[points[j].name] == Nil
    decreases |values|
  {
    if values == [] {
      BlankedNames(all, points);
      assert points[j] in points;
    } else {
      var r := values[|values| - 1];
      SecondOnAddressStaysNil(all, points, values[..|values| - 1], a, i, j);
      if r.id == points[i].address {
        EarlierMatchWins(points, i, r.id);
      } else {
        MatchHasName(points, r.id, j);
      }
    }
  }

  lemma {:induction false} MatchHasName(points: seq<PointMapping>, id: string, j: nat)
    requires j < |points| && id != points[j].address && id != points[j].name
    requires forall h :: 0 <= h < |points| && h != j ==> points[h].name != points[j].name
    ensures FirstMatch(points, id).Some? ==> FirstMatch(points, id).value.name != points[j].name
  {
    FirstMatchMatches(points, id);
    FirstMatchIsConfigured(points, id);
  }

  lemma {:induction false} FirstMatchMatches(points: seq<PointMapping>, id: string)
    ensures FirstMatch(points, id).Some? ==>
              id == FirstMatch(points, id).value.address || id == FirstMatch(points, id).value.name
  {
    if points != [] && id != points[0].address && id != points[0].name {
      FirstMatchMatches(points[1..], id);
    }
  }

  // ---- The Modbus path --------------------------------------------------

  /** extractPointAddresses */
  function Addresses(points: seq<PointMapping>): seq<string> {
    Apply((p: PointMapping) => p.address, points)
  }

  function FromDriver(v: PointValue): Reading {
    match v
    case Bad(id) => Reading(id, Nil)
    case Good(id, value) => Reading(id, value)
  }

  function AllFromDriver(vs: seq<PointValue>): (rs: seq<Reading>)
    ensures |rs| == |vs|
    ensures forall i :: 0 <= i < |vs| ==> rs[i] == FromDriver(vs[i])
  {
    seq(|vs|, i requires 0 <= i < |vs| => FromDriver(vs[i]))
  }

  /** A point the driver calls bad ends as nil, whatever its format and Type. */
  lemma BadIsNil(id: string, p: PointMapping, a: Arithmetic)
    ensures FromDriver(Bad(id)).id == id && Convert(p, FromDriver(Bad(id)).value, a) == Nil
  {
  }

  /** What each point should be answered with. */
  function ExpectedValues(code: string, m: DeviceMemory, scan: Scanner, points: seq<PointMapping>): seq<Value> {
    Apply((p: PointMapping) => HeldAt(code, m, scan, p.address), points)
  }

  /** The driver answers each configured point under its address, in whatever order. */
  lemma BatchAnswers(points: seq<PointMapping>, vs: seq<PointValue>, code: string, scan: Scanner, m: DeviceMemory)
    requires multiset(vs) == multiset(OwnContents(code, Addresses(points), scan, m))
    ensures Answers(AllFromDriver(vs), points, ExpectedValues(code, m, scan, points))
    ensures forall k :: 0 <= k < |points| ==> Answered(AllFromDriver(vs), points[k].address)
  {
    var own, values := OwnContents(code, Addresses(points), scan, m), AllFromDriver(vs);
    var expected := ExpectedValues(code, m, scan, points);
    forall t | 0 <= t < |values|
      ensures IsAnswer(values[t], points, expected)
    {
      assert vs[t] in multiset(own);
      var i :| 0 <= i < |own| && own[i] == vs[t];
      assert values[t] == Reading(points[i].address, expected[i]);
    }
    forall k | 0 <= k < |points|
      ensures Answered(values, points[k].address)
    {
      assert own[k] in multiset(vs);
      var t :| 0 <= t < |vs| && vs[t] == own[k];
      assert values[t].id == points[k].address;
    }
  }

  /** From the device to named values, for every function code: whatever order the sort
      leaves, every configured name ends with the conversion of what the device holds at
      its own address, but for a point that is not the first on its address, whose name
      stays nil. */
  lemma {:induction false} ContentsReachTheirNames(all: Values, code: string, points: seq<PointMapping>, scan: Scanner,
                                                   m: DeviceMemory, run: BatchRun, a: Arithmetic, k: nat)
    requires k < |points| && NamesAreOwn(points) && AllParse(scan, Addresses(points))
    requires IsBatch(code, Addresses(points), scan, DeviceClients(m), run)
    ensures run.result.Done?
    ensures var merged, p := MergeGroup(all, points, AllFromDriver(run.result.value), a), points[k];
      && p.name in merged
      && merged[p.name] == if IsFirst(points, k) then Convert(p, HeldAt(code, m, scan, p.address), a) else Nil
  {
    BatchReadsTheDevice(code, Addresses(points), scan, m, run);
    BatchAnswers(points, run.result.value, code, scan, m);
    MergeGivesOwn(all, points, AllFromDriver(run.result.value), ExpectedValues(code, m, scan, points), a, k);
  }

  /** A group with one address that does not parse gets no values at all. */
  lemma {:induction false} OneBadAddressLeavesNils(code: string, points: seq<PointMapping>, scan: Scanner,
                                                   clients: Clients, run: BatchRun)
    requires IsBatch(code, Addresses(points), scan, clients, run)
    requires !AllParse(scan, Addresses(points))
    ensures run.result.Failed? && run.requests == []
  {
    PlainPointsParse(scan, Addresses(points));
  }

  // ---- Formats and registers --------------------------------------------

  /** For every format the parser knows, the driver reads as many registers as the format
      has pairs of bytes. */
  lemma RegistersHoldFormat(name: string)
    requires FormatNamed(name).Some?
    ensures 2 * Formats.RegCount(name) == WidthOf(FormatNamed(name).value)
  {
    var upper := Formats.ToUpper(name);
    match WidthOf(FormatNamed(name).value) {
      case 2 =>
        assert upper[0] != "FLOAT"[0] && upper[0] != "LONG"[0] && upper[0] != "DOUBLE"[0];
      case 4 =>
        if IsFloat(FormatNamed(name).value) {
          FloatNames(name);
        } else {
          LongPrefix(name);
        }
      case _ => DoublePrefix(name);
    }
  }

  lemma LongPrefix(name: string)
    requires FormatNamed(name).Some? && IsLong(FormatNamed(name).value)
    ensures Formats.HasPrefix(Formats.ToUpper(name), "LONG")
  {
    assert name[0] == 'L' && name[1] == 'o' && name[2] == 'n' && name[3] == 'g';
    UpperStart(name, "LONG");
  }

  lemma DoublePrefix(name: string)
    requires FormatNamed(name).Some? && WidthOf(FormatNamed(name).value) == 8
    ensures Formats.HasPrefix(Formats.ToUpper(name), "DOUBLE")
    ensures !Formats.HasPrefix(Formats.ToUpper(name), "FLOAT") && !Formats.HasPrefix(Formats.ToUpper(name), "LONG")
  {
    assert name[0] == 'D' && name[1] == 'o' && name[2] == 'u' && name[3] == 'b' && name[4] == 'l' && name[5] == 'e';
    UpperStart(name, "DOUBLE");
    assert Formats.ToUpper(name)[0] != "FLOAT"[0] && Formats.ToUpper(name)[0] != "LONG"[0];
  }

  // ---- What a single register can carry ---------------------------------

  /** What a point read as one register is before its Type is looked at. */
  predicate RegisterReads(format: string, w: uint16, v: Value) {
    var upper, high, low := Formats.ToUpper(format), w / 256, w % 256;
    if upper == "INT" then v == GoInt(if w < 0x8000 then w else w - 0x1_0000)
    else if upper == "UINT" then v == GoUint(w)
    else if format == "Float AB CD" then v == Float32(w * 0x1_0000)
    else if format == "Float CD AB" then v == Float32(w)
    else if format == "Float BA DC" then v == Float32((low * 256 + high) * 0x1_0000)
    else if format == "Float DC BA" then v == Float32(low * 256 + high)
    else if "FLOAT" <= upper then v == Bytes([high, low, 0, 0])
    else v == Uint16(w)
  }

  lemma FloatPrefixNames(name: string)
    requires FormatNamed(name).Some? && Formats.HasPrefix(Formats.ToUpper(name), "FLOAT")
    ensures name in {"Float AB CD", "Float CD AB", "Float BA DC", "Float DC BA"}
  {
    assert Formats.ToUpper(name)[0] == "FLOAT"[0];
    assert Formats.UpperChar(name[0]) == 'F';
  }

  lemma FloatDecodesTo(format: string, w: uint16, v: Value)
    requires FormatNamed(format).Some? && IsFloat(FormatNamed(format).value)
    requires ParseFormat(format, [w / 256, w % 256, 0, 0]) == Some(v)
    ensures Decoded(format, Uint16(w)) == v
  {
    FloatNames(format);
    assert Widened(format, Uint16(w)) == Bytes([w / 256, w % 256, 0, 0]);
  }

  lemma FloatRegister(format: string, w: uint16)
    requires format in {"Float AB CD", "Float CD AB", "Float BA DC", "Float DC BA"}
    ensures RegisterReads(format, w, Decoded(format, Uint16(w)))
  {
    var high, low := w / 256, w % 256;
    var v := if format == "Float AB CD" then Float32(w * 0x1_0000)
             else if format == "Float CD AB" then Float32(w)
             else if format == "Float BA DC" then Float32((low * 256 + high) * 0x1_0000)
             else Float32(low * 256 + high);
    assert FormatNamed(format).Some? && IsFloat(FormatNamed(format).value) by {
      FloatNamed();
    }
    assert ParseFormat(format, [high, low, 0, 0]) == Some(v) by {
      FloatNamesMean([high, low, 0, 0]);
    }
    FloatDecodesTo(format, w, v);
    assert Formats.ToUpper(format) != "INT" && Formats.ToUpper(format) != "UINT" by {
      FloatNames(format);
    }
  }

  /** The value of every register under every format. */
  lemma RegisterDecodes(format: string, w: uint16)
    ensures RegisterReads(format, w, Decoded(format, Uint16(w)))
  {
    var upper := Formats.ToUpper(format);
    assert "INT"[0] != "FLOAT"[0] && "UINT"[0] != "FLOAT"[0];
    if format in {"Float AB CD", "Float CD AB", "Float BA DC", "Float DC BA"} {
      FloatRegister(format, w);
    } else {
      if FormatNamed(format).Some? && Formats.HasPrefix(upper, "FLOAT") {
        FloatPrefixNames(format);
      }
    }
  }

  /** And under every Type: "float" makes a float64 of every number but an unsigned one of
      Format UINT, "int" an int of a Float, and no other Type does anything. */
  lemma RegisterConverts(p: PointMapping, w: uint16, a: Arithmetic)
    ensures forall v :: RegisterReads(p.format, w, v) ==>
      Convert(p, Uint16(w), a)
      == if Formats.ToLower(p.kind) == "float" then
           match v
           case Float32(bits) => Float64((a.cents32)(bits))
           case GoInt(n) => Float64((a.centsOfInt)(n))
           case Uint16(n) => Float64((a.centsOfInt)(n))
           case _ => v
         else if Formats.ToLower(p.kind) == "int" && v.Float32? then GoInt((a.whole32)(v.bits32))
         else v
  {
    RegisterDecodes(p.format, w);
    var decoded := Decoded(p.format, Uint16(w));
    forall v | RegisterReads(p.format, w, v)
      ensures v == decoded
    {
    }
    CastIs(p.kind, decoded, a);
  }

  lemma UpperStart(name: string, prefix: string)
    requires |prefix| <= |name| && forall i :: 0 <= i < |prefix| ==> Formats.UpperChar(name[i]) == prefix[i]
    ensures Formats.HasPrefix(Formats.ToUpper(name), prefix)
  {
    assert Formats.ToUpper(name)[..|prefix|] == prefix;
  }

  lemma FloatNames(name: string)
    requires FormatNamed(name).Some? && IsFloat(FormatNamed(name).value)
    ensures Formats.HasPrefix(Formats.ToUpper(name), "FLOAT")
    ensures Formats.ToUpper(name) != "INT" && Formats.ToUpper(name) != "UINT" && name != ""
  {
    assert name[..5] == "Float";
    assert name[0] == 'F' && name[1] == 'l' && name[2] == 'o' && name[3] == 'a' && name[4] == 't';
    UpperStart(name, "FLOAT");
    assert Formats.ToUpper(name)[0] == 'F';
  }

  lemma LongNames(name: string)
    requires FormatNamed(name).Some? && IsLong(FormatNamed(name).value)
    ensures Formats.ToUpper(name)[0] == 'L' && name != ""
  {
    assert name[0] == 'L';
  }

  lemma FloatIsParsed(name: string, format: Format, first: uint16, second: uint16)
    requires FormatNamed(name) == Some(format) && IsFloat(format)
    ensures Some(Decoded(name, Uint16(first))) == Parse(format, PutWord(first) + [0, 0])
    ensures Some(Decoded(name, WordSlice([first, second]))) == Parse(format, PutWord(first) + PutWord(second))
  {
    FloatNames(name);
    TwoWords([first, second]);
  }

  /** A driver that does answer with all registers of a value gets it decoded whole: the
      first register is the high half. */
  lemma TwoRegistersMakeFloat(first: uint16, second: uint16)
    ensures Decoded("Float AB CD", WordSlice([first, second])) == Float32(first * 0x1_0000 + second)
  {
    FloatIsParsed("Float AB CD", FloatABCD, first, second);
    var raw := PutWord(first) + PutWord(second);
    assert raw[..4] == [first / 0x100, first % 0x100, second / 0x100, second % 0x100];
    FourBytesAreBE(first / 0x100, first % 0x100, second / 0x100, second % 0x100);
  }

  /** Four bytes decode to equal values only if they are equal. */
  lemma ParseIsInjective(format: Format, a: seq<byte>, b: seq<byte>)
    requires |a| == |b| == WidthOf(format) && Parse(format, a) == Parse(format, b)
    ensures a == b
  {
    ParseThenEncode(format, a);
    ParseThenEncode(format, b);
  }

  /** ReadBatch reads one register per point, so a Float point gets its first register
      and two zero bytes. That is the value its two registers hold exactly when the
      second one is zero. */
  lemma {:induction false} FloatIsRightIff(name: string, first: uint16, second: uint16)
    requires FormatNamed(name).Some? && IsFloat(FormatNamed(name).value)
    ensures Decoded(name, Uint16(first)) == Decoded(name, WordSlice([first, second]))
       <==> second == 0
  {
    var format := FormatNamed(name).value;
    FloatIsParsed(name, format, first, second);
    var one, both := PutWord(first) + [0, 0], PutWord(first) + PutWord(second);
    if Decoded(name, Uint16(first)) == Decoded(name, WordSlice([first, second])) {
      ParseIsInjective(format, one, both);
      assert one[2] == both[2] && one[3] == both[3];
    } else {
      assert one != both;
    }
  }

  /** A Long point is not decoded at all on this path: it keeps the bare first register. */
  lemma LongStaysRaw(name: string, first: uint16)
    requires FormatNamed(name).Some? && IsLong(FormatNamed(name).value)
    ensures Decoded(name, Uint16(first)) == Uint16(first)
  {
    LongNames(name);
    var upper := Formats.ToUpper(name);
    assert upper[0] != "FLOAT"[0] && upper[0] != "DOUBLE"[0] && upper[0] != "INT"[0] && upper[0] != "UINT"[0];
  }

  /** Nor is a Double point. */
  lemma DoubleStaysRaw(name: string, first: uint16)
    requires FormatNamed(name).Some? && WidthOf(FormatNamed(name).value) == 8
    ensures Decoded(name, Uint16(first)) == Uint16(first)
  {
    assert name[0] == 'D';
    var upper := Formats.ToUpper(name);
    assert upper[0] != "FLOAT"[0] && upper[0] != "INT"[0] && upper[0] != "UINT"[0];
  }

  /** An INT point is: its register as a 16-bit two's complement number. */
  lemma IntIsRight(first: uint16)
    ensures Decoded("INT", Uint16(first)) == GoInt(if first < 0x8000 then first else first - 0x1_0000)
  {
    assert Formats.ToUpper("INT") == "INT";
    assert "INT"[0] != "FLOAT"[0] && "INT"[0] != "DOUBLE"[0];
  }
}
