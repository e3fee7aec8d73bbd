/** Coil bits and register words packed into request and answer bytes. */
module Packing {
  import opened Words

  // ---- Bits -------------------------------------------------------------

  /** (b >> k) & 0x01 == 0x01 */
  predicate BitOf(b: bv8, k: nat)
    requires k < 8
  {
    (b >> k) & 1 == 1
  }

  /** Binary digit k of a number: halve it k times, rounding down; 1 if what is left is odd. */
  function Digit(n: nat, k: nat): nat {
    if k == 0 then n % 2 else Digit(n / 2, k - 1)
  }

  lemma ShiftHalves(b: bv8)
    ensures (b >> 1) as int == b as int / 2
    ensures b & 1 == 1 <==> b as int % 2 == 1
  {
  }

  lemma ShiftOnceMore(b: bv8, k: nat)
    requires k < 7
    ensures b >> (k + 1) == (b >> 1) >> k
  {
  }

  /** Bit k is binary digit k of the byte, the lowest being digit 0. */
  lemma {:induction false} BitIsDigit(b: bv8, k: nat)
    requires k < 8
    ensures BitOf(b, k) <==> Digit(b as int, k) == 1
    decreases k
  {
    ShiftHalves(b);
    if k == 0 {
      assert b >> 0 == b;
    } else {
      ShiftOnceMore(b, k - 1);
      BitIsDigit(b >> 1, k - 1);
    }
  }

  /** b | 1 << k */
  function SetBit(b: bv8, k: nat): bv8
    requires k < 8
  {
    b | (1 << k)
  }

  lemma SetBitExact(b: bv8, k: nat, j: nat)
    requires k < 8 && j < 8
    ensures BitOf(SetBit(b, k), j) <==> j == k || BitOf(b, j)
  {
  }

  lemma ZeroHasNoBits(j: nat)
    requires j < 8
    ensures !BitOf(0, j)
  {
  }

  lemma SameBitsSameByte(a: bv8, b: bv8)
    requires forall k :: 0 <= k < 8 ==> BitOf(a, k) == BitOf(b, k)
    ensures a == b
  {
    assert BitOf(a, 0) == BitOf(b, 0) && BitOf(a, 1) == BitOf(b, 1);
    assert BitOf(a, 2) == BitOf(b, 2) && BitOf(a, 3) == BitOf(b, 3);
    assert BitOf(a, 4) == BitOf(b, 4) && BitOf(a, 5) == BitOf(b, 5);
    assert BitOf(a, 6) == BitOf(b, 6) && BitOf(a, 7) == BitOf(b, 7);
  }

  /** Bytes needed for n bits. */
  function ByteCount(n: nat): nat {
    (n + 7) / 8
  }

  predicate BitAt(bytes: seq<bv8>, i: nat)
    requires i < 8 * |bytes|
  {
    BitOf(bytes[i / 8], i % 8)
  }

  /** Section 6.11 of MODBUS V1.1b3: bit i in byte i / 8, low bit first, and the
      rest of the last byte zero. */
  ghost predicate IsPacked(bits: seq<bool>, bytes: seq<bv8>) {
    && |bytes| == ByteCount(|bits|)
    && forall i :: 0 <= i < 8 * |bytes| ==> BitAt(bytes, i) == (i < |bits| && bits[i])
  }

  /** Those two demands leave no freedom. */
  lemma PackingIsUnique(bits: seq<bool>, a: seq<bv8>, b: seq<bv8>)
    requires IsPacked(bits, a) && IsPacked(bits, b)
    ensures a == b
  {
    forall m | 0 <= m < |a|
      ensures a[m] == b[m]
    {
      forall k | 0 <= k < 8
        ensures BitOf(a[m], k) == BitOf(b[m], k)
      {
        assert BitAt(a, 8 * m + k) == BitAt(b, 8 * m + k);
      }
      SameBitsSameByte(a[m], b[m]);
    }
  }

  /** WriteMultipleCoils: the quantity field and the payload. */
  method WriteMultipleCoils(values: seq<bool>) returns (quantity: uint16, payload: seq<bv8>)
    ensures quantity == |values| % MODULUS
    ensures IsPacked(values, payload)
  {
    var byteCount := ByteCount(|values|);
    var buf := new bv8[byteCount](_ => 0);
    forall i | 0 <= i < 8 * byteCount
      ensures !BitOf(buf[i / 8], i % 8)
    {
      ZeroHasNoBits(i % 8);
    }
    for n := 0 to |values|
      invariant forall i :: 0 <= i < 8 * byteCount ==> BitOf(buf[i / 8], i % 8) == (i < n && values[i])
    {
      if values[n] {
        ghost var was := buf[..];
        buf[n / 8] := SetBit(buf[n / 8], n % 8);
        forall i | 0 <= i < 8 * byteCount
          ensures BitOf(buf[i / 8], i % 8) == (i == n || BitOf(was[i / 8], i % 8))
        {
          SetBitExact(was[n / 8], n % 8, i % 8);
        }
      }
    }
    quantity := |values| % MODULUS;
    payload := buf[..];
    assert forall i :: 0 <= i < 8 * byteCount ==> BitAt(payload, i) == BitOf(buf[i / 8], i % 8);
  }

  /** The tail of ReadCoils and ReadDiscreteInputs: a short answer is an index panic. */
  function UnpackBits(bytes: seq<bv8>, quantity: uint16): Outcome<seq<bool>> {
    if |bytes| < ByteCount(quantity) then Panicked
    else Done(seq(quantity, i requires 0 <= i < quantity => BitAt(bytes, i)))
  }

  method UnpackCoils(results: seq<bv8>, quantity: uint16) returns (r: Outcome<seq<bool>>)
    ensures r == UnpackBits(results, quantity)
  {
    var coils := new bool[quantity];
    var i := 0;
    while i < quantity
      invariant 0 <= i <= quantity
      invariant ByteCount(i) <= |results|
      invariant forall k :: 0 <= k < i ==> coils[k] == BitAt(results, k)
    {
      var byteIndex, bitIndex := i / 8, i % 8;
      if byteIndex >= |results| {
        return Panicked;
      }
      coils[i] := BitOf(results[byteIndex], bitIndex);
      i := i + 1;
    }
    assert coils[..] == seq(quantity, i requires 0 <= i < quantity => BitAt(results, i));
    r := Done(coils[..]);
  }

  /** Unpacking what WriteMultipleCoils built gives the bits back: all of them up to
      65535, and beyond that as many as the truncated quantity field asks for. */
  lemma BitsRoundTrip(bits: seq<bool>, bytes: seq<bv8>)
    requires IsPacked(bits, bytes)
    ensures UnpackBits(bytes, |bits| % MODULUS) == Done(bits[..|bits| % MODULUS])
  {
    var quantity := |bits| % MODULUS;
    assert quantity <= |bits|;
    var unpacked := seq(quantity, i requires 0 <= i < quantity => BitAt(bytes, i));
    assert unpacked == bits[..quantity];
  }

  /** A packing as a function, for devices that answer with packed bits. */
  function PackBits(bits: seq<bool>): (bytes: seq<bv8>)
    ensures |bytes| == ByteCount(|bits|)
    decreases |bits|
  {
    if bits == [] then []
    else
      var n := |bits| - 1;
      var before := PackBits(bits[..n]);
      var room := if n % 8 == 0 then before + [0] else before;
      if bits[n] then room[n / 8 := SetBit(room[n / 8], n % 8)] else room
  }

  lemma {:induction false} PackBitsExact(bits: seq<bool>, i: nat)
    requires i < 8 * ByteCount(|bits|)
    ensures BitAt(PackBits(bits), i) == (i < |bits| && bits[i])
    decreases |bits|
  {
    var n := |bits| - 1;
    var before := PackBits(bits[..n]);
    var room := if n % 8 == 0 then before + [0] else before;
    if i < 8 * |before| {
      PackBitsExact(bits[..n], i);
    } else {
      ZeroHasNoBits(i % 8);
    }
    SetBitExact(room[n / 8], n % 8, i % 8);
  }

  // ---- Words ------------------------------------------------------------

  function PackWords(words: seq<uint16>): (bytes: seq<byte>)
    ensures |bytes| == 2 * |words|
  {
    if words == [] then [] else PackWords(words[..|words| - 1]) + PutWord(words[|words| - 1])
  }

  /** WriteMultipleRegisters */
  method WriteMultipleRegisters(values: seq<uint16>) returns (quantity: uint16, payload: seq<byte>)
    ensures quantity == |values| % MODULUS
    ensures payload == PackWords(values)
  {
    var buf := new byte[2 * |values|];
    for i := 0 to |values|
      invariant buf[..2 * i] == PackWords(values[..i])
    {
      buf[2 * i] := values[i] / 0x100;
      buf[2 * i + 1] := values[i] % 0x100;
      assert values[..i + 1][..i] == values[..i];
      assert buf[..2 * (i + 1)] == buf[..2 * i] + PutWord(values[i]);
    }
    assert values[..|values|] == values;
    quantity := |values| % MODULUS;
    payload := buf[..];
  }

  /** The tail of ReadHoldingRegisters and ReadInputRegisters, on the bytes of the answer
      and those behind it in its memory: a slice of a slice may run up to the capacity. */
  function UnpackWords(backing: seq<byte>, quantity: uint16): Outcome<seq<uint16>> {
    if |backing| < 2 * quantity then Panicked
    else Done(WordsAt(backing, 0, quantity))
  }

  /** spare is what lies between the length and the capacity of results. */
  method UnpackRegisters(results: seq<byte>, spare: seq<byte>, quantity: uint16) returns (r: Outcome<seq<uint16>>)
    ensures r == UnpackWords(results + spare, quantity)
  {
    var backing := results + spare;
    var regs := new uint16[quantity];
    var i := 0;
    while i < quantity
      invariant 0 <= i <= quantity && 2 * i <= |backing|
      invariant forall k :: 0 <= k < i ==> regs[k] == WordAt(backing, k)
    {
      if 2 * i + 2 > |results| + |spare| {
        return Panicked;
      }
      regs[i] := WordAt(backing, i);
      i := i + 1;
    }
    assert regs[..] == WordsAt(backing, 0, quantity);
    r := Done(regs[..]);
  }

  /** What lies behind the answer decides nothing exactly when the answer is long enough:
      a short one panics or makes words of foreign bytes. */
  lemma SpareIsIgnoredIff(results: seq<byte>, quantity: uint16)
    ensures (forall spare :: UnpackWords(results + spare, quantity) == UnpackWords(results, quantity))
       <==> |results| >= 2 * quantity
  {
    if |results| >= 2 * quantity {
      forall spare
        ensures UnpackWords(results + spare, quantity) == UnpackWords(results, quantity)
      {
        assert WordsAt(results + spare, 0, quantity) == WordsAt(results, 0, quantity);
      }
    } else {
      var spare := seq<byte>(2 * quantity, i => 0);
      assert UnpackWords(results + spare, quantity).Done?;
    }
  }

  lemma {:induction false} PackedWord(words: seq<uint16>, k: nat)
    requires k < |words|
    ensures WordAt(PackWords(words), k) == words[k]
    decreases |words|
  {
    if k < |words| - 1 {
      PackedWord(words[..|words| - 1], k);
    }
  }

  lemma UnpackedPrefix(bytes: seq<byte>, words: seq<uint16>, quantity: uint16)
    requires quantity <= |words| && |bytes| >= 2 * quantity
    requires forall k :: 0 <= k < quantity ==> WordAt(bytes, k) == words[k]
    ensures UnpackWords(bytes, quantity) == Done(words[..quantity])
  {
    var unpacked := WordsAt(bytes, 0, quantity);
    forall k | 0 <= k < quantity
      ensures unpacked[k] == words[..quantity][k]
    {
      assert 0 + k == k;
    }
    assert unpacked == words[..quantity];
  }

  lemma {:induction false} PackedPrefix(words: seq<uint16>, quantity: uint16)
    requires quantity <= |words|
    ensures UnpackWords(PackWords(words), quantity) == Done(words[..quantity])
  {
    var bytes := PackWords(words);
    forall k | 0 <= k < quantity
      ensures WordAt(bytes, k) == words[k]
    {
      PackedWord(words, k);
    }
    UnpackedPrefix(bytes, words, quantity);
  }

  lemma {:induction false} WordsRoundTrip(words: seq<uint16>, spare: seq<byte>)
    ensures UnpackWords(PackWords(words) + spare, |words| % MODULUS) == Done(words[..|words| % MODULUS])
  {
    var quantity := |words| % MODULUS;
    assert quantity <= |words|;
    PackedPrefix(words, quantity);
    assert WordsAt(PackWords(words) + spare, 0, quantity) == WordsAt(PackWords(words), 0, quantity);
  }
}
