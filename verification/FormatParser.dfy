/** Decoding raw register bytes: byte orders, two's complement, and the casts on top.
    Floats are their bit patterns. */
module FormatParser {
  import opened Dynamic
  import opened Words
  import Formats

  // ---- Byte strings as numbers ------------------------------------------

  /** binary.BigEndian on a whole byte string */
  function BE(bytes: seq<byte>): (n: nat)
  {
    if bytes == [] then 0 else BE(bytes[..|bytes| - 1]) * 0x100 + bytes[|bytes| - 1]
  }

  function Reversed(bytes: seq<byte>): (r: seq<byte>)
    ensures |r| == |bytes|
    ensures forall i :: 0 <= i < |bytes| ==> r[i] == bytes[|bytes| - 1 - i]
  {
    seq<byte>(|bytes|, i requires 0 <= i < |bytes| => bytes[|bytes| - 1 - i])
  }

  /** binary.LittleEndian */
  function LE(bytes: seq<byte>): nat {
    BE(Reversed(bytes))
  }

  function Signed(n: int, modulus: nat): int {
    if 2 * n < modulus then n else n - modulus
  }

  const TWO32: nat := 0x1_0000_0000

  // ---- ParseFormat ------------------------------------------------------

  datatype Format =
    | IntBE | UintBE
    | LongABCD | LongCDAB | LongBADC | LongDCBA
    | FloatABCD | FloatCDAB | FloatBADC | FloatDCBA
    | DoubleABCDEFGH | DoubleGHEFCDAB | DoubleBADCFEHG | DoubleHGFEDCBA

  /** Format names are compared as they are, upper and lower case. */
  function FormatNamed(name: string): Option<Format> {
    if name == "INT" then Some(IntBE)
    else if name == "UINT" then Some(UintBE)
    else if name == "Long AB CD" then Some(LongABCD)
    else if name == "Long CD AB" then Some(LongCDAB)
    else if name == "Long BA DC" then Some(LongBADC)
    else if name == "Long DC BA" then Some(LongDCBA)
    else if name == "Float AB CD" then Some(FloatABCD)
    else if name == "Float CD AB" then Some(FloatCDAB)
    else if name == "Float BA DC" then Some(FloatBADC)
    else if name == "Float DC BA" then Some(FloatDCBA)
    else if name == "Double AB CD EF GH" then Some(DoubleABCDEFGH)
    else if name == "Double GH EF CD AB" then Some(DoubleGHEFCDAB)
    else if name == "Double BA DC FE HG" then Some(DoubleBADCFEHG)
    else if name == "Double HG FE DC BA" then Some(DoubleHGFEDCBA)
    else None
  }

  /** One case of the switch; None is the error of a short input. */
  function Parse(format: Format, raw: seq<byte>): Option<Value> {
    if |raw| < WidthOf(format) then None
    else
      match format
      case IntBE => Some(Int16(Signed(BE(raw[..2]), MODULUS)))
      case UintBE => Some(Uint16(WordAt(raw, 0)))
      case LongABCD => Some(Int32(Signed(BE(raw[..4]), TWO32)))
      case LongCDAB => Some(Int32(Signed(LE([raw[2], raw[3], raw[0], raw[1]]), TWO32)))
      case LongBADC => Some(Int32(Signed(BE([raw[1], raw[0], raw[3], raw[2]]), TWO32)))
      case LongDCBA => Some(Int32(Signed(LE(raw[..4]), TWO32)))
      case FloatABCD => Some(Float32(BE(raw[..4])))
      case FloatCDAB => Some(Float32(BE([raw[2], raw[3], raw[0], raw[1]])))
      case FloatBADC => Some(Float32(BE([raw[1], raw[0], raw[3], raw[2]])))
      case FloatDCBA => Some(Float32(LE(raw[..4])))
      case DoubleABCDEFGH => Some(Float64(BE(raw[..8])))
      case DoubleGHEFCDAB => Some(Float64(BE([raw[6], raw[7], raw[4], raw[5], raw[2], raw[3], raw[0], raw[1]])))
      case DoubleBADCFEHG => Some(Float64(BE([raw[1], raw[0], raw[3], raw[2], raw[5], raw[4], raw[7], raw[6]])))
      case DoubleHGFEDCBA => Some(Float64(LE(raw[..8])))
  }

  /** Bytes a format needs; longer inputs are cut. */
  function WidthOf(format: Format): nat {
    match format
    case IntBE | UintBE => 2
    case LongABCD | LongCDAB | LongBADC | LongDCBA | FloatABCD | FloatCDAB | FloatBADC | FloatDCBA => 4
    case _ => 8
  }

  predicate IsFloat(format: Format) {
    format.FloatABCD? || format.FloatCDAB? || format.FloatBADC? || format.FloatDCBA?
  }

  predicate IsLong(format: Format) {
    format.LongABCD? || format.LongCDAB? || format.LongBADC? || format.LongDCBA?
  }

  function ParseFormat(name: string, raw: seq<byte>): Option<Value> {
    match FormatNamed(name)
    case None => None
    case Some(format) => Parse(format, raw)
  }

  /** The cast on top of ParseFormat, and whether it reports an error. */
  function ParseAndCast(format: string, raw: Value): (Value, bool) {
    var upper := Formats.ToUpper(format);
    if format == "" then (raw, false)
    else if upper == "INT" && raw.Int16? then (GoInt(raw.i16), false)
    else if upper == "INT" && raw.GoInt? then (GoInt(Signed(raw.i % MODULUS, MODULUS)), false)
    else if upper == "INT" && raw.Uint16? then (GoInt(Signed(raw.u16, MODULUS)), false)
    else if upper == "INT" && raw.GoUint? then (GoInt(Signed(raw.u % MODULUS, MODULUS)), false)
    else if upper == "UINT" && raw.Uint16? then (GoUint(raw.u16), false)
    else if upper == "UINT" && raw.GoUint? then (Uint16(raw.u % MODULUS), false)
    else if raw.Bytes? then
      match ParseFormat(format, raw.bytes)
      case None => (raw, true)
      case Some(v) => (v, false)
    else (raw, false)
  }

  /** INT cuts signed and unsigned words and ints, UINT the unsigned ones. */
  predicate IsCut(upper: string, raw: Value) {
    || (upper == "INT" && (raw.Int16? || raw.GoInt?))
    || ((upper == "INT" || upper == "UINT") && (raw.Uint16? || raw.GoUint?))
  }

  /** INT by dynamic type: a word as its two's complement, an int cut to 16 bits. */
  lemma IntCasts(format: string, raw: Value)
    requires Formats.ToUpper(format) == "INT"
    ensures var cast := ParseAndCast(format, raw);
      && (raw.Int16? ==> cast == (GoInt(raw.i16), false))
      && (raw.Uint16? ==> cast == (GoInt(if raw.u16 < 0x8000 then raw.u16 else raw.u16 - 0x1_0000), false))
      && (raw.GoInt? || raw.GoUint? ==>
            && cast.0.GoInt? && !cast.1 && -0x8000 <= cast.0.i < 0x8000
            && (cast.0.i - (if raw.GoInt? then raw.i else raw.u)) % 0x1_0000 == 0)
  {
    assert format != "";
  }

  /** UINT by dynamic type. */
  lemma UintCasts(format: string, raw: Value)
    requires Formats.ToUpper(format) == "UINT"
    ensures var cast := ParseAndCast(format, raw);
      && (raw.Uint16? ==> cast == (GoUint(raw.u16), false))
      && (raw.GoUint? ==> cast.0.Uint16? && !cast.1 && (cast.0.u16 - raw.u) % 0x1_0000 == 0)
  {
    assert format != "" && "INT"[0] != "UINT"[0];
  }

  /** Anything else: bytes are parsed under the name, and other values stay as they are. */
  lemma OtherCasts(format: string, raw: Value)
    requires format != "" && !IsCut(Formats.ToUpper(format), raw)
    ensures ParseAndCast(format, raw)
         == if !raw.Bytes? then (raw, false)
            else if ParseFormat(format, raw.bytes).Some? then (ParseFormat(format, raw.bytes).value, false)
            else (raw, true)
  {
  }

  // ---- Byte orders ------------------------------------------------------

  type Order = seq<nat>

  const PLAIN2: Order := [0, 1]
  const PLAIN4: Order := [0, 1, 2, 3]
  const REVERSED4: Order := [3, 2, 1, 0]
  const SWAPPED4: Order := [1, 0, 3, 2]      // the two bytes of each word exchanged
  const WORDS4: Order := [2, 3, 0, 1]        // the words in reverse order
  const PLAIN8: Order := [0, 1, 2, 3, 4, 5, 6, 7]
  const REVERSED8: Order := [7, 6, 5, 4, 3, 2, 1, 0]
  const SWAPPED8: Order := [1, 0, 3, 2, 5, 4, 7, 6]
  const WORDS8: Order := [6, 7, 4, 5, 2, 3, 0, 1]

  /** Position i of the number is byte order[i] of the input. As written, Long CD AB
      reads its bytes in the order of Long BA DC. */
  function OrderOf(format: Format): (order: Order)
    ensures |order| == WidthOf(format)
  {
    match format
    case IntBE | UintBE => PLAIN2
    case LongABCD | FloatABCD => PLAIN4
    case LongCDAB | LongBADC | FloatBADC => SWAPPED4
    case FloatCDAB => WORDS4
    case LongDCBA | FloatDCBA => REVERSED4
    case DoubleABCDEFGH => PLAIN8
    case DoubleGHEFCDAB => WORDS8
    case DoubleBADCFEHG => SWAPPED8
    case DoubleHGFEDCBA => REVERSED8
  }

  predicate IsInvolution(order: Order) {
    && (forall i :: 0 <= i < |order| ==> order[i] < |order|)
    && (forall i :: 0 <= i < |order| ==> order[order[i]] == i)
  }

  function Permute(bytes: seq<byte>, order: Order): (r: seq<byte>)
    requires forall i :: 0 <= i < |order| ==> order[i] < |bytes|
    ensures |r| == |order|
    ensures forall i :: 0 <= i < |order| ==> r[i] == bytes[order[i]]
  {
    seq<byte>(|order|, i requires 0 <= i < |order| => bytes[order[i]])
  }

  /** The bit pattern inside a decoded value. */
  function BitsOf(v: Value): nat {
    match v
    case Int16(n) => n % MODULUS
    case Uint16(n) => n
    case Int32(n) => n % TWO32
    case Float32(bits) => bits
    case Float64(bits) => bits
    case _ => 0
  }

  function Pow256(n: nat): (p: nat)
    ensures p > 0
  {
    if n == 0 then 1 else 0x100 * Pow256(n - 1)
  }

  /** A number as so many big-endian bytes. */
  function ToBE(n: nat, length: nat): (bytes: seq<byte>)
    ensures |bytes| == length
  {
    if length == 0 then [] else ToBE(n / 0x100, length - 1) + [n % 0x100]
  }

  lemma {:induction false} BEBound(bytes: seq<byte>)
    ensures BE(bytes) < Pow256(|bytes|)
  {
    if bytes != [] {
      BEBound(bytes[..|bytes| - 1]);
    }
  }

  lemma {:induction false} BEOfToBE(n: nat, length: nat)
    requires n < Pow256(length)
    ensures BE(ToBE(n, length)) == n
    decreases length
  {
    if length > 0 {
      BEOfToBE(n / 0x100, length - 1);
      assert ToBE(n, length)[..length - 1] == ToBE(n / 0x100, length - 1);
    }
  }

  lemma {:induction false} ToBEOfBE(bytes: seq<byte>)
    ensures ToBE(BE(bytes), |bytes|) == bytes
    decreases |bytes|
  {
    if bytes != [] {
      var before, last := bytes[..|bytes| - 1], bytes[|bytes| - 1];
      ToBEOfBE(before);
      assert (BE(before) * 0x100 + last) / 0x100 == BE(before);
    }
  }

  lemma PermuteTwice(bytes: seq<byte>, order: Order)
    requires |bytes| == |order| && IsInvolution(order)
    ensures Permute(Permute(bytes, order), order) == bytes
  {
  }

  lemma ShortOrdersAreInvolutions()
    ensures IsInvolution(PLAIN2) && IsInvolution(PLAIN4) && IsInvolution(REVERSED4)
    ensures IsInvolution(SWAPPED4) && IsInvolution(WORDS4)
  {
  }

  lemma LongOrdersAreInvolutions()
    ensures IsInvolution(PLAIN8) && IsInvolution(REVERSED8)
  {
  }

  lemma LongWordOrdersAreInvolutions()
    ensures IsInvolution(SWAPPED8) && IsInvolution(WORDS8)
  {
  }

  /** Every byte order of the parser undoes itself. */
  lemma OrdersAreInvolutions(format: Format)
    ensures IsInvolution(OrderOf(format))
  {
    ShortOrdersAreInvolutions();
    LongOrdersAreInvolutions();
    LongWordOrdersAreInvolutions();
  }

  lemma PowersOf256()
    ensures Pow256(2) == MODULUS && Pow256(4) == TWO32
  {
    assert Pow256(1) == 0x100 * Pow256(0);
    assert Pow256(3) == 0x100 * Pow256(2);
  }

  /** The bytes a format looks at, in its order. */
  function Used(format: Format, raw: seq<byte>): (used: seq<byte>)
    requires |raw| >= WidthOf(format)
    ensures |used| == WidthOf(format)
  {
    OrdersAreInvolutions(format);
    Permute(raw, OrderOf(format))
  }

  lemma PairsArePermutations(format: Format, raw: seq<byte>)
    requires |raw| >= 2 && WidthOf(format) == 2
    ensures BitsOf(Parse(format, raw).value) == BE(Used(format, raw))
  {
    var used := Used(format, raw);
    BEBound(used);
    PowersOf256();
    assert used == raw[..2];
    PairIsBE(raw);
  }

  lemma LongsArePermutations(format: Format, raw: seq<byte>)
    requires |raw| >= 4 && IsLong(format)
    ensures BitsOf(Parse(format, raw).value) == BE(Used(format, raw))
  {
    var used := Used(format, raw);
    BEBound(used);
    PowersOf256();
    match format
    case LongABCD => assert used == raw[..4];
    case LongCDAB => assert used == Reversed([raw[2], raw[3], raw[0], raw[1]]);
    case LongBADC => assert used == [raw[1], raw[0], raw[3], raw[2]];
    case LongDCBA => assert used == Reversed(raw[..4]);
  }

  lemma PlainFloatsArePermutations(format: Format, raw: seq<byte>)
    requires |raw| >= 4 && (format.FloatABCD? || format.FloatDCBA?)
    ensures BitsOf(Parse(format, raw).value) == BE(Used(format, raw))
  {
    var used := Used(format, raw);
    if format.FloatABCD? {
      assert used == raw[..4];
    } else {
      assert used == Reversed(raw[..4]);
    }
  }

  lemma FloatsArePermutations(format: Format, raw: seq<byte>)
    requires |raw| >= 4 && IsFloat(format)
    ensures BitsOf(Parse(format, raw).value) == BE(Used(format, raw))
  {
    var used := Used(format, raw);
    if format.FloatCDAB? {
      assert used == [raw[2], raw[3], raw[0], raw[1]];
    } else if format.FloatBADC? {
      assert used == [raw[1], raw[0], raw[3], raw[2]];
    } else {
      PlainFloatsArePermutations(format, raw);
    }
  }

  lemma DoublesArePermutations(format: Format, raw: seq<byte>)
    requires |raw| >= 8 && WidthOf(format) == 8
    ensures BitsOf(Parse(format, raw).value) == BE(Used(format, raw))
  {
    var used := Used(format, raw);
    match format
    case DoubleABCDEFGH => assert used == raw[..8];
    case DoubleGHEFCDAB => assert used == [raw[6], raw[7], raw[4], raw[5], raw[2], raw[3], raw[0], raw[1]];
    case DoubleBADCFEHG => assert used == [raw[1], raw[0], raw[3], raw[2], raw[5], raw[4], raw[7], raw[6]];
    case DoubleHGFEDCBA => assert used == Reversed(raw[..8]);
  }

  /** What the parser computes: the bytes it looks at, in its order, as one big-endian
      number. */
  lemma ParseIsPermutation(format: Format, raw: seq<byte>)
    requires |raw| >= WidthOf(format)
    ensures IsInvolution(OrderOf(format)) && Parse(format, raw).Some?
    ensures BitsOf(Parse(format, raw).value) == BE(Permute(raw, OrderOf(format)))
  {
    OrdersAreInvolutions(format);
    if IsFloat(format) {
      FloatsArePermutations(format, raw);
    } else if WidthOf(format) == 8 {
      DoublesArePermutations(format, raw);
    } else if WidthOf(format) == 2 {
      PairsArePermutations(format, raw);
    } else {
      LongsArePermutations(format, raw);
    }
  }

  lemma PairIsBE(raw: seq<byte>)
    requires |raw| >= 2
    ensures BE(raw[..2]) == WordAt(raw, 0)
  {
    assert raw[..2][..1] == [raw[0]];
    assert BE([raw[0]]) == raw[0] by {
      assert [raw[0]][..0] == [];
    }
  }

  lemma FourBytesAreBE(a: byte, b: byte, c: byte, d: byte)
    ensures BE([a, b, c, d]) == ((a as int * 0x100 + b) * 0x100 + c) * 0x100 + d
  {
    assert [a][..0] == [] && BE([a]) == a;
    assert [a, b][..1] == [a] && BE([a, b]) == BE([a]) * 0x100 + b;
    assert [a, b, c][..2] == [a, b] && BE([a, b, c]) == BE([a, b]) * 0x100 + c;
    assert [a, b, c, d][..3] == [a, b, c];
  }

  // ---- What each name means ---------------------------------------------

  /** A 16-bit or 32-bit number in two's complement. */
  function TwosComplement(n: nat, bits: nat): int
    requires bits == 16 || bits == 32
  {
    if bits == 16 then (if n < 0x8000 then n else n - 0x1_0000)
    else if n < 0x8000_0000 then n else n - 0x1_0000_0000
  }

  /** By name: the two formats of two bytes. */
  lemma ShortNames(raw: seq<byte>)
    ensures |raw| < 2 ==> ParseFormat("INT", raw) == None && ParseFormat("UINT", raw) == None
    ensures |raw| >= 2 ==>
      var n := raw[0] as int * 0x100 + raw[1];
      && ParseFormat("INT", raw) == Some(Int16(TwosComplement(n, 16)))
      && ParseFormat("UINT", raw) == Some(Uint16(n))
  {
    if |raw| >= 2 {
      PairIsBE(raw);
    }
  }

  /** The number with these bytes, from the highest to the lowest. */
  function Number(a: byte, b: byte, c: byte, d: byte): nat {
    a as int * 0x100_0000 + b as int * 0x1_0000 + c as int * 0x100 + d
  }

  lemma FourBytesInOrder(raw: seq<byte>)
    requires |raw| >= 4
    ensures BE(raw[..4]) == Number(raw[0], raw[1], raw[2], raw[3])
    ensures BE([raw[2], raw[3], raw[0], raw[1]]) == Number(raw[2], raw[3], raw[0], raw[1])
    ensures BE([raw[1], raw[0], raw[3], raw[2]]) == Number(raw[1], raw[0], raw[3], raw[2])
    ensures LE(raw[..4]) == Number(raw[3], raw[2], raw[1], raw[0])
    ensures LE([raw[2], raw[3], raw[0], raw[1]]) == Number(raw[1], raw[0], raw[3], raw[2])
  {
    assert raw[..4] == [raw[0], raw[1], raw[2], raw[3]];
    assert Reversed(raw[..4]) == [raw[3], raw[2], raw[1], raw[0]];
    assert Reversed([raw[2], raw[3], raw[0], raw[1]]) == [raw[1], raw[0], raw[3], raw[2]];
    FourBytesAreBE(raw[0], raw[1], raw[2], raw[3]);
    FourBytesAreBE(raw[2], raw[3], raw[0], raw[1]);
    FourBytesAreBE(raw[1], raw[0], raw[3], raw[2]);
    FourBytesAreBE(raw[3], raw[2], raw[1], raw[0]);
  }

  /** By name: the four Long formats. The bytes are listed from the highest to the lowest
      of the number; Long CD AB is as the code has it, not as its name says. */
  lemma LongNamesMean(raw: seq<byte>)
    ensures |raw| < 4 ==>
      && ParseFormat("Long AB CD", raw) == None && ParseFormat("Long CD AB", raw) == None
      && ParseFormat("Long BA DC", raw) == None && ParseFormat("Long DC BA", raw) == None
    ensures |raw| >= 4 ==>
      && ParseFormat("Long AB CD", raw) == Some(Int32(TwosComplement(Number(raw[0], raw[1], raw[2], raw[3]), 32)))
      && ParseFormat("Long CD AB", raw) == Some(Int32(TwosComplement(Number(raw[1], raw[0], raw[3], raw[2]), 32)))
      && ParseFormat("Long BA DC", raw) == Some(Int32(TwosComplement(Number(raw[1], raw[0], raw[3], raw[2]), 32)))
      && ParseFormat("Long DC BA", raw) == Some(Int32(TwosComplement(Number(raw[3], raw[2], raw[1], raw[0]), 32)))
  {
    LongNamed();
    if |raw| >= 4 {
      FourBytesInOrder(raw);
    }
  }

  /** By name: the four Float formats, as bit patterns. */
  lemma FloatNamesMean(raw: seq<byte>)
    ensures |raw| < 4 ==>
      && ParseFormat("Float AB CD", raw) == None && ParseFormat("Float CD AB", raw) == None
      && ParseFormat("Float BA DC", raw) == None && ParseFormat("Float DC BA", raw) == None
    ensures |raw| >= 4 ==>
      && ParseFormat("Float AB CD", raw) == Some(Float32(Number(raw[0], raw[1], raw[2], raw[3])))
      && ParseFormat("Float CD AB", raw) == Some(Float32(Number(raw[2], raw[3], raw[0], raw[1])))
      && ParseFormat("Float BA DC", raw) == Some(Float32(Number(raw[1], raw[0], raw[3], raw[2])))
      && ParseFormat("Float DC BA", raw) == Some(Float32(Number(raw[3], raw[2], raw[1], raw[0])))
  {
    FloatNamed();
    if |raw| >= 4 {
      FourBytesInOrder(raw);
    }
  }

  /** The number with these eight bytes. */
  function LongNumber(a: byte, b: byte, c: byte, d: byte, e: byte, f: byte, g: byte, h: byte): nat {
    Number(a, b, c, d) * 0x1_0000_0000 + Number(e, f, g, h)
  }

  lemma {:induction false} OneMoreByte(bytes: seq<byte>, b: byte)
    ensures BE(bytes + [b]) == BE(bytes) * 0x100 + b
  {
    assert (bytes + [b])[..|bytes|] == bytes;
  }

  lemma {:induction false} FourMoreBytes(bytes: seq<byte>, e: byte, f: byte, g: byte, h: byte)
    ensures BE(bytes + [e] + [f] + [g] + [h]) == BE(bytes) * 0x1_0000_0000 + Number(e, f, g, h)
  {
    OneMoreByte(bytes, e);
    OneMoreByte(bytes + [e], f);
    OneMoreByte(bytes + [e] + [f], g);
    OneMoreByte(bytes + [e] + [f] + [g], h);
  }

  lemma EightBytesAreBE(a: byte, b: byte, c: byte, d: byte, e: byte, f: byte, g: byte, h: byte)
    ensures BE([a, b, c, d, e, f, g, h]) == LongNumber(a, b, c, d, e, f, g, h)
  {
    assert BE([a, b, c, d]) == Number(a, b, c, d) by {
      FourBytesAreBE(a, b, c, d);
    }
    assert [a, b, c, d, e, f, g, h] == [a, b, c, d] + [e] + [f] + [g] + [h];
    FourMoreBytes([a, b, c, d], e, f, g, h);
  }

  lemma EightBytesListed(raw: seq<byte>)
    requires |raw| >= 8
    ensures raw[..8] == [raw[0], raw[1], raw[2], raw[3], raw[4], raw[5], raw[6], raw[7]]
    ensures Reversed(raw[..8]) == [raw[7], raw[6], raw[5], raw[4], raw[3], raw[2], raw[1], raw[0]]
  {
  }

  /** By name: the four Double formats, as bit patterns. */
  lemma DoubleNamesMean(raw: seq<byte>)
    ensures |raw| < 8 ==>
      && ParseFormat("Double AB CD EF GH", raw) == None && ParseFormat("Double GH EF CD AB", raw) == None
      && ParseFormat("Double BA DC FE HG", raw) == None && ParseFormat("Double HG FE DC BA", raw) == None
    ensures |raw| >= 8 ==>
      && ParseFormat("Double AB CD EF GH", raw)
         == Some(Float64(LongNumber(raw[0], raw[1], raw[2], raw[3], raw[4], raw[5], raw[6], raw[7])))
      && ParseFormat("Double GH EF CD AB", raw)
         == Some(Float64(LongNumber(raw[6], raw[7], raw[4], raw[5], raw[2], raw[3], raw[0], raw[1])))
      && ParseFormat("Double BA DC FE HG", raw)
         == Some(Float64(LongNumber(raw[1], raw[0], raw[3], raw[2], raw[5], raw[4], raw[7], raw[6])))
      && ParseFormat("Double HG FE DC BA", raw)
         == Some(Float64(LongNumber(raw[7], raw[6], raw[5], raw[4], raw[3], raw[2], raw[1], raw[0])))
  {
    DoubleNamed();
    if |raw| >= 8 {
      EightBytesListed(raw);
      EightBytesAreBE(raw[0], raw[1], raw[2], raw[3], raw[4], raw[5], raw[6], raw[7]);
      EightBytesAreBE(raw[6], raw[7], raw[4], raw[5], raw[2], raw[3], raw[0], raw[1]);
      EightBytesAreBE(raw[1], raw[0], raw[3], raw[2], raw[5], raw[4], raw[7], raw[6]);
      EightBytesAreBE(raw[7], raw[6], raw[5], raw[4], raw[3], raw[2], raw[1], raw[0]);
    }
  }

  /** No other name is a format. */
  lemma OtherNamesMeanNothing(name: string, raw: seq<byte>)
    requires name !in {"INT", "UINT"}
    requires name !in {"Long AB CD", "Long CD AB", "Long BA DC", "Long DC BA"}
    requires name !in {"Float AB CD", "Float CD AB", "Float BA DC", "Float DC BA"}
    requires name !in {"Double AB CD EF GH", "Double GH EF CD AB", "Double BA DC FE HG", "Double HG FE DC BA"}
    ensures FormatNamed(name) == None && ParseFormat(name, raw) == None
  {
  }

  lemma LongNamed()
    ensures FormatNamed("Long AB CD") == Some(LongABCD) && FormatNamed("Long CD AB") == Some(LongCDAB)
    ensures FormatNamed("Long BA DC") == Some(LongBADC) && FormatNamed("Long DC BA") == Some(LongDCBA)
  {
    assert "Long AB CD"[5] == 'A' && "Long CD AB"[5] == 'C' && "Long BA DC"[5] == 'B' && "Long DC BA"[5] == 'D';
  }

  lemma FloatNamed()
    ensures FormatNamed("Float AB CD") == Some(FloatABCD) && FormatNamed("Float CD AB") == Some(FloatCDAB)
    ensures FormatNamed("Float BA DC") == Some(FloatBADC) && FormatNamed("Float DC BA") == Some(FloatDCBA)
  {
    assert "Float AB CD"[6] == 'A' && "Float CD AB"[6] == 'C' && "Float BA DC"[6] == 'B' && "Float DC BA"[6] == 'D';
    assert "Float AB CD"[0] == 'F' && "Long AB CD"[0] == 'L';
  }

  lemma DoubleNamed()
    ensures FormatNamed("Double AB CD EF GH") == Some(DoubleABCDEFGH)
    ensures FormatNamed("Double GH EF CD AB") == Some(DoubleGHEFCDAB)
    ensures FormatNamed("Double BA DC FE HG") == Some(DoubleBADCFEHG)
    ensures FormatNamed("Double HG FE DC BA") == Some(DoubleHGFEDCBA)
  {
    assert "Double AB CD EF GH"[7] == 'A' && "Double GH EF CD AB"[7] == 'G';
    assert "Double BA DC FE HG"[7] == 'B' && "Double HG FE DC BA"[7] == 'H';
  }

  // ---- Round trips ------------------------------------------------------

  /** The bytes a device would send for a bit pattern in this format. */
  function Encode(order: Order, bits: nat): seq<byte>
    requires IsInvolution(order)
  {
    Permute(ToBE(bits, |order|), order)
  }

  /** Decoding is invertible: every bit pattern has an encoding that decodes to it, and
      every input of the right length is the encoding of what it decodes to. */
  lemma EncodeThenParse(format: Format, bits: nat)
    requires bits < Pow256(WidthOf(format))
    ensures IsInvolution(OrderOf(format))
    ensures var parsed := Parse(format, Encode(OrderOf(format), bits));
      parsed.Some? && BitsOf(parsed.value) == bits
  {
    OrdersAreInvolutions(format);
    var order := OrderOf(format);
    ParseIsPermutation(format, Encode(order, bits));
    PermuteTwice(ToBE(bits, |order|), order);
    BEOfToBE(bits, |order|);
  }

  lemma ParseThenEncode(format: Format, raw: seq<byte>)
    requires |raw| == WidthOf(format)
    ensures IsInvolution(OrderOf(format)) && Parse(format, raw).Some?
    ensures Encode(OrderOf(format), BitsOf(Parse(format, raw).value)) == raw
  {
    ParseIsPermutation(format, raw);
    ToBEOfBE(Permute(raw, OrderOf(format)));
    PermuteTwice(raw, OrderOf(format));
  }

  // ---- How the orders relate --------------------------------------------

  /** Full reversal is word reversal after swapping the bytes in each word. */
  lemma ReversalIsSwapOfWords(bytes: seq<byte>)
    ensures |bytes| == 4 ==> Permute(Permute(bytes, WORDS4), SWAPPED4) == Permute(bytes, REVERSED4)
    ensures |bytes| == 8 ==> Permute(Permute(bytes, WORDS8), SWAPPED8) == Permute(bytes, REVERSED8)
  {
  }

  lemma ReversedIsSwapped4(raw: seq<byte>)
    requires |raw| == 4
    ensures var w := Permute(raw, WORDS4); Reversed(raw) == [w[1], w[0], w[3], w[2]]
  {
    ReversalIsSwapOfWords(raw);
    assert Reversed(raw) == Permute(raw, REVERSED4);
  }

  lemma ReversedIsSwapped8(raw: seq<byte>)
    requires |raw| == 8
    ensures var w := Permute(raw, WORDS8); Reversed(raw) == [w[1], w[0], w[3], w[2], w[5], w[4], w[7], w[6]]
  {
    ReversalIsSwapOfWords(raw);
    assert Reversed(raw) == Permute(raw, REVERSED8);
  }

  lemma ReversedFormatsAgree(raw: seq<byte>)
    ensures |raw| == 4 ==>
      && Parse(LongDCBA, raw) == Parse(LongBADC, Permute(raw, WORDS4))
      && Parse(FloatDCBA, raw) == Parse(FloatBADC, Permute(raw, WORDS4))
    ensures |raw| == 8 ==> Parse(DoubleHGFEDCBA, raw) == Parse(DoubleBADCFEHG, Permute(raw, WORDS8))
  {
    if |raw| == 4 {
      ReversedIsSwapped4(raw);
      assert raw[..4] == raw;
    } else if |raw| == 8 {
      ReversedIsSwapped8(raw);
      assert raw[..8] == raw;
    }
  }

  /** As written, Long CD AB is Long BA DC, on every input. */
  lemma LongCDABIsLongBADC(raw: seq<byte>)
    ensures Parse(LongCDAB, raw) == Parse(LongBADC, raw)
  {
    if |raw| >= 4 {
      assert Reversed([raw[2], raw[3], raw[0], raw[1]]) == [raw[1], raw[0], raw[3], raw[2]];
    }
  }

  /** It yields the number its name promises, words in reverse order as Float CD AB
      reads them, exactly when the outer bytes are equal and the inner ones are. */
  lemma LongCDABIsRightIff(raw: seq<byte>)
    requires |raw| >= 4
    ensures BitsOf(Parse(LongCDAB, raw).value) == BitsOf(Parse(FloatCDAB, raw).value)
       <==> raw[0] == raw[3] && raw[1] == raw[2]
  {
    ParseIsPermutation(LongCDAB, raw);
    ParseIsPermutation(FloatCDAB, raw);
    var got, meant := Permute(raw, SWAPPED4), Permute(raw, WORDS4);
    if BE(got) == BE(meant) {
      ToBEOfBE(got);
      ToBEOfBE(meant);
      assert got[0] == meant[0] && got[1] == meant[1];
    } else {
      assert got != meant;
    }
  }

  // ---- INT and UINT -----------------------------------------------------

  /** The register path and the byte path of INT and UINT give the same number. */
  lemma RegisterAndBytePathsAgree(w: uint16)
    ensures Parse(IntBE, PutWord(w)) == Some(Int16(ParseAndCast("INT", Uint16(w)).0.i))
    ensures Parse(UintBE, PutWord(w)) == Some(Uint16(ParseAndCast("UINT", Uint16(w)).0.u))
  {
    PairIsBE(PutWord(w));
    assert Formats.ToUpper("INT") == "INT" && Formats.ToUpper("UINT") == "UINT";
  }

  /** Casting again changes nothing: INT is two's complement on 16 bits. */
  lemma IntCastIsStable(raw: Value)
    requires raw.Uint16? || raw.Int16? || raw.GoInt? || raw.GoUint?
    requires raw.Int16? ==> -0x8000 <= raw.i16 < 0x8000
    ensures var once := ParseAndCast("INT", raw);
      && once.0.GoInt? && -0x8000 <= once.0.i < 0x8000 && !once.1
      && ParseAndCast("INT", once.0) == once
  {
    assert Formats.ToUpper("INT") == "INT";
  }
}
