/**
 * Decoding one signal from a CAN payload. The Go agent accumulates bytes in a 64-bit word, masks
 * and shifts it and extends the sign; the Python agent lets its library read the integer and
 * masks and shifts that. Both are compared with the number the bytes stand for.
 */
module CanDecoder {
  import opened Prelude
  import opened Bits
  import opened Masks

  // The Go decoder works in one machine word.
  const WORD: nat := 64

  datatype Kind = UInt8 | UInt16 | UInt32 | Int8 | Int16 | Int32 | ByteField | Boolean

  datatype Endianness = Big | Little | Other

  datatype Decoder = Decoder(byteOffset: int, kind: Kind, endianness: Endianness, length: Option<int>,
                             signed: bool, bit: int, mask: Option<Mask>, shift: int)

  datatype Raw = Refused | Bit(set_: bool) | Number(n: int)

  function FixedLength(kind: Kind): (n: nat)
    ensures n <= 4
  {
    match kind
    case UInt8 | Int8 => 1
    case UInt16 | Int16 => 2
    case UInt32 | Int32 => 4
    case ByteField | Boolean => 0
  }

  predicate IsSigned(d: Decoder) {
    d.kind == Int8 || d.kind == Int16 || d.kind == Int32 || (d.kind == ByteField && d.signed)
  }

  function GoLength(d: Decoder): int {
    if d.kind != ByteField then FixedLength(d.kind) else if d.length.Some? then d.length.value else 0
  }

  function PythonLength(d: Decoder): int {
    if d.kind != ByteField then FixedLength(d.kind) else if d.length.Some? then d.length.value else 1
  }

  // ------------------------------------------------------------------ what bytes stand for

  function Reversed<T>(s: seq<T>): (r: seq<T>)
    ensures |r| == |s|
    ensures forall i :: 0 <= i < |s| ==> r[i] == s[|s| - 1 - i]
  {
    seq(|s|, i requires 0 <= i < |s| => s[|s| - 1 - i])
  }

  // Where the byte with the i-th highest weight stands in a field of n bytes.
  function Place(e: Endianness, n: nat, i: nat): (position: nat)
    requires i < n
    ensures position < n
  {
    if e == Little then n - i - 1 else i
  }

  /** The number that the `k` most significant bytes of a field stand for. */
  function Leading(e: Endianness, field: seq<Byte>, k: nat): nat
    requires k <= |field|
  {
    if k == 0 then 0 else 256 * Leading(e, field, k - 1) + field[Place(e, |field|, k - 1)]
  }

  function Magnitude(e: Endianness, field: seq<Byte>): nat {
    Leading(e, field, |field|)
  }

  lemma {:induction false} LeadingFits(e: Endianness, field: seq<Byte>, k: nat)
    requires k <= |field|
    ensures Leading(e, field, k) < Pow2(8 * k)
    decreases k
  {
    if k > 0 {
      LeadingFits(e, field, k - 1);
      PowerOfByte(8 * (k - 1));
    }
  }

  lemma {:induction false} LeadingOfPrefix(a: seq<Byte>, b: seq<Byte>, k: nat)
    requires k <= |a| && k <= |b| && a[..k] == b[..k]
    ensures Leading(Big, a, k) == Leading(Big, b, k)
    decreases k
  {
    if k > 0 {
      assert a[..k][k - 1] == b[..k][k - 1];
      assert a[..k - 1] == a[..k][..k - 1] && b[..k - 1] == b[..k][..k - 1];
      LeadingOfPrefix(a, b, k - 1);
    }
  }

  lemma {:induction false} LeadingReversed(field: seq<Byte>, k: nat)
    requires k <= |field|
    ensures Leading(Little, Reversed(field), k) == Leading(Big, field, k)
    ensures Leading(Big, Reversed(field), k) == Leading(Little, field, k)
    decreases k
  {
    if k > 0 {
      LeadingReversed(field, k - 1);
    }
  }

  // ------------------------------------------------------------------ the Go decoder

  // Masking with all ones, which is what an absent mask comes to, changes nothing.
  const ALL_ONES := -1

  function GoMaskOf(d: Decoder, beyond: int -> Word): (r: Option<int>)
    ensures r.Some? ==> r.value == ALL_ONES || 0 <= r.value < WORD_LIMIT
  {
    if d.mask.None? then Some(ALL_ONES) else GoMask(d.mask.value, beyond)
  }

  /** What the Go decoder answers, in terms of the number the addressed bytes stand for. */
  function GoDecoded(d: Decoder, data: seq<Byte>, beyond: int -> Word): Raw {
    var n := GoLength(d);
    if !(0 <= d.byteOffset < |data|) then Refused
    else if d.kind == Boolean then
      if 0 <= d.bit <= 7 then Bit(BitSet(data[d.byteOffset], d.bit)) else Refused
    else if n <= 0 || d.byteOffset + n > |data| || n > 8 then Refused
    else if d.endianness == Other || GoMaskOf(d, beyond).None? || d.shift < 0 then Refused
    else
      var magnitude := Magnitude(d.endianness, data[d.byteOffset..][..n]);
      Number(GoNumber(magnitude, 8 * n, IsSigned(d), GoMaskOf(d, beyond).value, d.shift))
  }

  // The sign is looked for after masking and shifting.
  function GoNumber(magnitude: nat, bits: nat, signed: bool, mask: int, shift: nat): int
    requires bits > 0
  {
    AndBounds(magnitude, mask);
    ShrKeepsSign(And(magnitude, mask), shift);
    var raw := Shr(And(magnitude, mask), shift);
    if signed then TwosComplement(raw, bits) else raw
  }

  lemma ShiftInByte(x: nat, b: Byte, width: nat)
    requires 256 * x < Pow2(width)
    ensures Shl(x, 8, width) == 256 * x && Or(Shl(x, 8, width), b) == 256 * x + b
  {
    PowerOfByte(0);
    assert x * Pow2(8) == 256 * x;
    SmallShr(256 * x, width);
    OrBelow(x, b, 8);
  }

  lemma OneByteMore(e: Endianness, field: seq<Byte>, k: nat, width: nat)
    requires k < |field| && 8 * k + 8 <= width
    ensures 0 <= Shl(Leading(e, field, k), 8, width)
    ensures Or(Shl(Leading(e, field, k), 8, width), field[Place(e, |field|, k)]) == Leading(e, field, k + 1)
  {
    LeadingFits(e, field, k);
    PowerOfByte(8 * k);
    PowMonotone(8 * k + 8, width);
    ShiftInByte(Leading(e, field, k), field[Place(e, |field|, k)], width);
  }

  method DecodeValue(d: Decoder, data: seq<Byte>, beyond: int -> Word) returns (value: Raw)
    ensures value == GoDecoded(d, data, beyond)
  {
    if d.byteOffset < 0 || d.byteOffset >= |data| { return Refused; }
    if d.kind == Boolean {
      if d.bit < 0 || d.bit > 7 { return Refused; }
      AndOneBit(data[d.byteOffset], d.bit);
      return Bit(And(data[d.byteOffset], Pow2(d.bit)) != 0);
    }
    var length := GoLength(d);
    if length <= 0 || d.byteOffset + length > |data| || length > 8 { return Refused; }
    if d.endianness == Other { return Refused; }
    var raw := ReadWord(d.endianness, data[d.byteOffset..][..length], WORD);
    LeadingFits(d.endianness, data[d.byteOffset..][..length], length);
    if d.mask.Some? {
      var mask := GoMask(d.mask.value, beyond);
      if mask.None? { return Refused; }
      AndBounds(raw, mask.value);
      raw := And(raw, mask.value);
    }
    if d.shift < 0 { return Refused; }
    ShrNarrows(raw, d.shift, 8 * length);
    raw := Shr(raw, d.shift);
    var number := raw;
    if IsSigned(d) {
      number := ExtendSign(raw, length * 8, WORD);
    }
    value := Number(number);
  }

  /** The sign test and the fill above the field, in one machine word. */
  method ExtendSign(raw: nat, bits: nat, word: nat) returns (number: int)
    requires 0 < bits <= word && raw < Pow2(bits)
    ensures number == TwosComplement(raw, bits)
  {
    SignExtension(raw, bits, word);
    if And(raw, Pow2(bits - 1)) != 0 {
      number := TwosComplement(Or(raw, Shl(Pow2(word) - 1, bits, word)), word);
    } else {
      number := raw;
    }
  }

  /** The shift-or loop reads the word the bytes spell, in either order. */
  method ReadWord(e: Endianness, slice: seq<Byte>, word: nat) returns (raw: nat)
    requires 8 * |slice| <= word && e != Other
    ensures raw == Magnitude(e, slice)
  {
    raw := 0;
    for index := 0 to |slice|
      invariant raw == Leading(e, slice, index)
    {
      var position := index;
      if e == Little { position := |slice| - index - 1; }
      OneByteMore(e, slice, index, word);
      raw := Or(Shl(raw, 8, word), slice[position]);
    }
  }

  // ------------------------------------------------------------------ round trips

  /** The lowest `n` bytes of a number in two's complement, most significant first. */
  function Encode(n: nat, v: int): (s: seq<Byte>)
    ensures |s| == n
  {
    if n == 0 then [] else Encode(n - 1, v / 256) + [v % 256]
  }

  function EncodeAs(e: Endianness, n: nat, v: int): (s: seq<Byte>)
    ensures |s| == n
  {
    if e == Little then Reversed(Encode(n, v)) else Encode(n, v)
  }

  lemma {:induction false} EncodedMagnitude(n: nat, v: int)
    requires -Pow2(8 * n) <= v < Pow2(8 * n)
    ensures Leading(Big, Encode(n, v), n) == if v < 0 then v + Pow2(8 * n) else v
    decreases n
  {
    if n > 0 {
      PowerOfByte(8 * (n - 1));
      EncodedMagnitude(n - 1, v / 256);
      LeadingOfPrefix(Encode(n, v), Encode(n - 1, v / 256), n - 1);
    }
  }

  lemma EncodeStep(n: nat, v: int, b: Byte)
    ensures Encode(n + 1, 256 * v + b) == Encode(n, v) + [b]
  {
    assert (256 * v + b) / 256 == v && (256 * v + b) % 256 == b;
  }

  /** The number that bytes stand for, read as negative or not. */
  function Lifted(magnitude: nat, negative: bool, k: nat): int {
    if negative then magnitude - Pow2(8 * k) else magnitude
  }

  lemma {:induction false} LeadingIsEncoded(field: seq<Byte>, k: nat, negative: bool)
    requires k <= |field|
    ensures Encode(k, Lifted(Leading(Big, field, k), negative, k)) == field[..k]
    decreases k
  {
    if k > 0 {
      var v := Leading(Big, field, k - 1);
      LeadingIsEncoded(field, k - 1, negative);
      PowerOfByte(8 * (k - 1));
      EncodeStep(k - 1, Lifted(v, negative, k - 1), field[k - 1]);
      assert field[..k] == field[..k - 1] + [field[k - 1]];
    }
  }

  predicate InRange(signed: bool, n: nat, v: int)
    requires n > 0
  {
    if signed then -Pow2(8 * n - 1) <= v < Pow2(8 * n - 1) else 0 <= v < Pow2(8 * n)
  }

  /** A field of one to eight whole bytes with nothing masked or shifted away. */
  predicate Plain(d: Decoder) {
    && d.kind != Boolean && d.endianness != Other && 0 <= d.byteOffset
    && 1 <= GoLength(d) <= 8 && d.mask == None && d.shift == 0
  }

  lemma SliceOf<T>(before: seq<T>, field: seq<T>, after: seq<T>)
    ensures (before + field + after)[|before|..][..|field|] == field
  {}

  /** Any number of the field's range, written anywhere in a payload, is what the decoder reads there. */
  lemma EncodedFieldIsRead(d: Decoder, before: seq<Byte>, v: int, after: seq<Byte>, beyond: int -> Word)
    requires Plain(d) && d.byteOffset == |before| && InRange(IsSigned(d), GoLength(d), v)
    ensures GoDecoded(d, before + EncodeAs(d.endianness, GoLength(d), v) + after, beyond) == Number(v)
  {
    var n := GoLength(d);
    SliceOf(before, EncodeAs(d.endianness, n, v), after);
    HalfOf(8 * n);
    EncodedMagnitude(n, v);
    LeadingReversed(Encode(n, v), n);
  }

  lemma HalfOf(bits: nat)
    requires bits > 0
    ensures Pow2(bits) == 2 * Pow2(bits - 1)
  {}

  function FieldValue(e: Endianness, signed: bool, field: seq<Byte>): int
    requires field != []
  {
    if signed then TwosComplement(Magnitude(e, field), 8 * |field|) else Magnitude(e, field)
  }

  lemma FieldInRange(e: Endianness, signed: bool, field: seq<Byte>)
    requires field != []
    ensures InRange(signed, |field|, FieldValue(e, signed, field))
  {
    LeadingFits(e, field, |field|);
    HalfOf(8 * |field|);
  }

  lemma EncodedBack(e: Endianness, field: seq<Byte>, negative: bool)
    requires e != Other
    ensures EncodeAs(e, |field|, Lifted(Magnitude(e, field), negative, |field|)) == field
  {
    var ordered := if e == Little then Reversed(field) else field;
    LeadingReversed(field, |field|);
    LeadingIsEncoded(ordered, |field|, negative);
    assert ordered[..|field|] == ordered;
  }

  /** Whatever a plain field reads is in its range, and writing it back gives the same bytes. */
  lemma ReadFieldIsEncoded(d: Decoder, data: seq<Byte>, beyond: int -> Word)
    requires Plain(d) && d.byteOffset + GoLength(d) <= |data|
    ensures var n := GoLength(d);
      && GoDecoded(d, data, beyond).Number? && InRange(IsSigned(d), n, GoDecoded(d, data, beyond).n)
      && EncodeAs(d.endianness, n, GoDecoded(d, data, beyond).n) == data[d.byteOffset..][..n]
  {
    var field := data[d.byteOffset..][..GoLength(d)];
    assert GoDecoded(d, data, beyond) == Number(FieldValue(d.endianness, IsSigned(d), field));
    FieldInRange(d.endianness, IsSigned(d), field);
    EncodedBack(d.endianness, field, FieldValue(d.endianness, IsSigned(d), field) < Magnitude(d.endianness, field));
  }

  /** Little-endian is big-endian of the reversed field, masked and shifted or not. */
  lemma LittleIsReversedBig(d: Decoder, before: seq<Byte>, field: seq<Byte>, after: seq<Byte>, beyond: int -> Word)
    requires d.kind != Boolean && d.byteOffset == |before| && GoLength(d) == |field|
    ensures GoDecoded(d.(endianness := Little), before + field + after, beyond)
         == GoDecoded(d.(endianness := Big), before + Reversed(field) + after, beyond)
  {
    SliceOf(before, field, after);
    SliceOf(before, Reversed(field), after);
    LeadingReversed(field, |field|);
  }

  // ------------------------------------------------------------------ the Python decoder

  /** What the profile schema admits. */
  predicate Admitted(d: Decoder) {
    && 0 <= d.byteOffset <= 63 && (d.length.Some? ==> 1 <= d.length.value <= 64)
    && 0 <= d.bit <= 7 && 0 <= d.shift <= 63 && d.endianness != Other
  }

  function Min(a: int, b: int): int {
    if a < b then a else b
  }

  function PythonMaskOf(d: Decoder): Option<int> {
    if d.mask.None? then Some(ALL_ONES) else PythonMask(d.mask.value)
  }

  function PythonRaw(d: Decoder, data: seq<Byte>): Raw
    requires Admitted(d)
  {
    if d.kind == Boolean then
      if d.byteOffset >= |data| then Refused
      else Bit(And(data[d.byteOffset], Pow2(d.bit)) != 0)
    else
      var n := PythonLength(d);
      var chunk := data[Min(d.byteOffset, |data|)..Min(d.byteOffset + n, |data|)];
      if |chunk| != n || PythonMaskOf(d).None? then Refused
      else
        Number(PythonNumber(Magnitude(d.endianness, chunk), 8 * n, IsSigned(d), PythonMaskOf(d).value, d.shift))
  }

  // The library has already read the sign.
  function PythonNumber(magnitude: nat, bits: nat, signed: bool, mask: int, shift: nat): int
    requires bits > 0
  {
    var value := if signed then TwosComplement(magnitude, bits) else magnitude;
    Shr(And(value, mask), shift)
  }

  // ------------------------------------------------------------------ the two numbers, bit by bit

  /** Bit `k` of what Go makes of a field: above the field the sign, if the shift has left it in place. */
  predicate GoBit(v: nat, bits: nat, signed: bool, mask: int, shift: nat, k: nat)
    requires bits > 0
  {
    if shift + k < bits then BitSet(v, shift + k) && BitSet(mask, shift + k)
    else signed && shift == 0 && BitSet(v, bits - 1) && BitSet(mask, bits - 1)
  }

  /** Bit `k` of what Python makes of it: the sign goes on without end, under the mask. */
  predicate PythonBit(v: nat, bits: nat, signed: bool, mask: int, shift: nat, k: nat)
    requires bits > 0
  {
    BitSet(mask, shift + k) && if shift + k < bits then BitSet(v, shift + k) else signed && BitSet(v, bits - 1)
  }

  lemma UnsignedBits(v: nat, bits: nat, mask: int, shift: nat, k: nat)
    requires bits > 0 && v < Pow2(bits)
    ensures BitSet(Shr(And(v, mask), shift), k) <==> shift + k < bits && BitSet(v, shift + k) && BitSet(mask, shift + k)
    ensures 0 <= Shr(And(v, mask), shift) < Pow2(bits)
  {
    ShrSum(And(v, mask), shift, k);
    AndBit(v, mask, shift + k);
    AndBounds(v, mask);
    ShrNarrows(And(v, mask), shift, bits);
    if shift + k >= bits { HighBits(v, bits, shift + k); }
  }

  /** Reading a field as signed repeats its top bit. */
  lemma SignedBits(raw: nat, bits: nat, k: nat)
    requires bits > 0 && raw < Pow2(bits)
    ensures BitSet(TwosComplement(raw, bits), k) <==> if k < bits then BitSet(raw, k) else BitSet(raw, bits - 1)
  {
    TopBit(raw, bits - 1);
    if raw >= Pow2(bits - 1) {
      LoweredBits(raw, bits, k);
    } else if k >= bits {
      HighBits(raw, bits, k);
    }
  }

  lemma GoBits(v: nat, bits: nat, signed: bool, mask: int, shift: nat, k: nat)
    requires bits > 0 && v < Pow2(bits)
    ensures BitSet(GoNumber(v, bits, signed, mask, shift), k) == GoBit(v, bits, signed, mask, shift, k)
  {
    UnsignedBits(v, bits, mask, shift, k);
    UnsignedBits(v, bits, mask, shift, bits - 1);
    SignedBits(Shr(And(v, mask), shift), bits, k);
  }

  lemma PythonBits(v: nat, bits: nat, signed: bool, mask: int, shift: nat, k: nat)
    requires bits > 0 && v < Pow2(bits)
    ensures BitSet(PythonNumber(v, bits, signed, mask, shift), k) == PythonBit(v, bits, signed, mask, shift, k)
  {
    var value := if signed then TwosComplement(v, bits) else v;
    ShrSum(And(value, mask), shift, k);
    AndBit(value, mask, shift + k);
    SignedBits(v, bits, shift + k);
    if shift + k >= bits { HighBits(v, bits, shift + k); }
  }

  function Max(a: nat, b: nat): nat {
    if a < b then b else a
  }

  /** Above the field, and above what the shift drops, Python's mask goes on as Go's sign does. */
  predicate SignsAlike(bits: nat, goMask: int, pythonMask: int, shift: nat)
    requires bits > 0
  {
    Shr(pythonMask, Max(bits, shift)) == Alike(shift == 0 && BitSet(goMask, bits - 1))
  }

  /** The two masks agree on this bit of the field, if it is set. */
  predicate MasksMeet(v: nat, goMask: int, pythonMask: int, i: nat) {
    BitSet(v, i) ==> BitSet(goMask, i) == BitSet(pythonMask, i)
  }

  /**
   * The masks agree on every set bit of the field that the shift leaves, and, where the field is
   * negative, above it.
   */
  ghost predicate MasksAgree(v: nat, bits: nat, signed: bool, goMask: int, pythonMask: int, shift: nat)
    requires bits > 0
  {
    && (forall i: nat :: shift <= i < bits ==> MasksMeet(v, goMask, pythonMask, i))
    && (signed && BitSet(v, bits - 1) ==> SignsAlike(bits, goMask, pythonMask, shift))
  }

  predicate SameBit(v: nat, bits: nat, signed: bool, goMask: int, pythonMask: int, shift: nat, k: nat)
    requires bits > 0
  {
    GoBit(v, bits, signed, goMask, shift, k) == PythonBit(v, bits, signed, pythonMask, shift, k)
  }

  lemma SameBitsWhenMasksAgree(v: nat, bits: nat, signed: bool, goMask: int, pythonMask: int, shift: nat, k: nat)
    requires bits > 0 && MasksAgree(v, bits, signed, goMask, pythonMask, shift)
    ensures SameBit(v, bits, signed, goMask, pythonMask, shift, k)
  {
    if shift + k < bits {
      assert MasksMeet(v, goMask, pythonMask, shift + k);
    } else {
      HighBitsAlike(pythonMask, Max(bits, shift), shift == 0 && BitSet(goMask, bits - 1));
    }
  }

  lemma MasksAgreeWhenSameBits(v: nat, bits: nat, signed: bool, goMask: int, pythonMask: int, shift: nat)
    requires bits > 0 && forall k: nat :: SameBit(v, bits, signed, goMask, pythonMask, shift, k)
    ensures MasksAgree(v, bits, signed, goMask, pythonMask, shift)
  {
    forall i: nat | shift <= i < bits ensures MasksMeet(v, goMask, pythonMask, i) {
      assert SameBit(v, bits, signed, goMask, pythonMask, shift, i - shift);
    }
    if signed && BitSet(v, bits - 1) {
      var ones := shift == 0 && BitSet(goMask, bits - 1);
      forall i: nat | i >= Max(bits, shift) ensures BitSet(pythonMask, i) == ones {
        assert SameBit(v, bits, signed, goMask, pythonMask, shift, i - shift);
      }
      HighBitsAlike(pythonMask, Max(bits, shift), ones);
    }
  }

  /** Of any field, under any two masks, the two numbers are the same exactly when the masks agree on it. */
  lemma NumbersAgree(v: nat, bits: nat, signed: bool, goMask: int, pythonMask: int, shift: nat)
    requires bits > 0 && v < Pow2(bits)
    ensures GoNumber(v, bits, signed, goMask, shift) == PythonNumber(v, bits, signed, pythonMask, shift)
      <==> MasksAgree(v, bits, signed, goMask, pythonMask, shift)
  {
    var go, python := GoNumber(v, bits, signed, goMask, shift), PythonNumber(v, bits, signed, pythonMask, shift);
    forall k: nat ensures SameBits(go, python, k) <==> SameBit(v, bits, signed, goMask, pythonMask, shift, k) {
      GoBits(v, bits, signed, goMask, shift, k);
      PythonBits(v, bits, signed, pythonMask, shift, k);
    }
    if go == python {
      MasksAgreeWhenSameBits(v, bits, signed, goMask, pythonMask, shift);
    }
    if MasksAgree(v, bits, signed, goMask, pythonMask, shift) {
      forall k: nat ensures SameBits(go, python, k) {
        SameBitsWhenMasksAgree(v, bits, signed, goMask, pythonMask, shift, k);
      }
      BitsDetermine(go, python);
    }
  }

  // ------------------------------------------------------------------ one payload

  /** The addressed bytes are all there. */
  predicate Addresses(d: Decoder, data: seq<Byte>) {
    d.byteOffset + PythonLength(d) <= |data|
  }

  /** The addressed bytes as an unsigned number. */
  function Field(d: Decoder, data: seq<Byte>): nat
    requires Admitted(d) && d.kind != Boolean && Addresses(d, data)
  {
    Magnitude(d.endianness, data[d.byteOffset..][..PythonLength(d)])
  }

  /** The Go decoder has no default width, and one machine word. */
  predicate GoReads(d: Decoder, beyond: int -> Word) {
    (d.kind == ByteField ==> d.length.Some?) && PythonLength(d) <= 8 && GoMaskOf(d, beyond).Some?
  }

  /** Both refuse the field, or both read it under masks that agree on it. */
  ghost predicate SameReading(d: Decoder, v: nat, beyond: int -> Word)
    requires Admitted(d) && d.kind != Boolean
  {
    && (GoReads(d, beyond) <==> PythonMaskOf(d).Some?)
    && (GoReads(d, beyond) ==>
          MasksAgree(v, 8 * PythonLength(d), IsSigned(d), GoMaskOf(d, beyond).value, PythonMaskOf(d).value, d.shift))
  }

  /**
   * The two decoders mean the same by the payload: a flag, or a field that is not all there, or a
   * field they read alike.
   */
  ghost predicate SameMeaning(d: Decoder, data: seq<Byte>, beyond: int -> Word)
    requires Admitted(d)
  {
    d.kind != Boolean && Addresses(d, data) ==> SameReading(d, Field(d, data), beyond)
  }

  lemma PythonReadsField(d: Decoder, data: seq<Byte>)
    requires Admitted(d) && d.kind != Boolean && Addresses(d, data)
    ensures Field(d, data) < Pow2(8 * PythonLength(d))
    ensures PythonRaw(d, data)
         == if PythonMaskOf(d).None? then Refused
            else Number(PythonNumber(Field(d, data), 8 * PythonLength(d), IsSigned(d), PythonMaskOf(d).value, d.shift))
  {
    var n := PythonLength(d);
    assert data[d.byteOffset..d.byteOffset + n] == data[d.byteOffset..][..n];
    LeadingFits(d.endianness, data[d.byteOffset..][..n], n);
  }

  lemma GoReadsField(d: Decoder, data: seq<Byte>, beyond: int -> Word)
    requires Admitted(d) && d.kind != Boolean && Addresses(d, data)
    ensures GoDecoded(d, data, beyond)
         == if !GoReads(d, beyond) then Refused
            else Number(GoNumber(Field(d, data), 8 * PythonLength(d), IsSigned(d), GoMaskOf(d, beyond).value, d.shift))
  {}

  lemma FieldsAgree(d: Decoder, data: seq<Byte>, beyond: int -> Word)
    requires Admitted(d) && d.kind != Boolean && Addresses(d, data)
    ensures GoDecoded(d, data, beyond) == PythonRaw(d, data) <==> SameMeaning(d, data, beyond)
  {
    PythonReadsField(d, data);
    GoReadsField(d, data, beyond);
    if GoReads(d, beyond) && PythonMaskOf(d).Some? {
      var goMask, pythonMask := GoMaskOf(d, beyond).value, PythonMaskOf(d).value;
      NumbersAgree(Field(d, data), 8 * PythonLength(d), IsSigned(d), goMask, pythonMask, d.shift);
    }
  }

  lemma FlagsAgree(d: Decoder, data: seq<Byte>, beyond: int -> Word)
    requires Admitted(d) && d.kind == Boolean
    ensures GoDecoded(d, data, beyond) == PythonRaw(d, data)
  {
    if d.byteOffset < |data| { AndOneBit(data[d.byteOffset], d.bit); }
  }

  /** On every payload, under every mask, the two decoders answer alike exactly when they mean the same. */
  lemma DecodersAgree(d: Decoder, data: seq<Byte>, beyond: int -> Word)
    requires Admitted(d)
    ensures GoDecoded(d, data, beyond) == PythonRaw(d, data) <==> SameMeaning(d, data, beyond)
  {
    if d.kind == Boolean {
      FlagsAgree(d, data, beyond);
    } else if Addresses(d, data) {
      FieldsAgree(d, data, beyond);
    } else {
      assert GoDecoded(d, data, beyond) == Refused == PythonRaw(d, data);
    }
  }

  // ------------------------------------------------------------------ every payload

  /** The masks have the same bits where the field has any, and mean the same sign. */
  ghost predicate MasksAlwaysAgree(bits: nat, signed: bool, goMask: int, pythonMask: int, shift: nat)
    requires bits > 0
  {
    && (forall i: nat :: shift <= i < bits ==> SameBits(goMask, pythonMask, i))
    && (signed ==> SignsAlike(bits, goMask, pythonMask, shift))
  }

  /** A mask on which two readers differ for some field is told by a field of one bit. */
  lemma OneBitTells(bits: nat, signed: bool, goMask: int, pythonMask: int, shift: nat, i: nat)
    requires i < bits && MasksAgree(Pow2(i), bits, signed, goMask, pythonMask, shift)
    ensures shift <= i ==> SameBits(goMask, pythonMask, i)
    ensures signed && i == bits - 1 ==> SignsAlike(bits, goMask, pythonMask, shift)
  {
    BitOfPower(i, i);
    assert shift <= i ==> MasksMeet(Pow2(i), goMask, pythonMask, i);
  }

  /** A payload whose field is this number. */
  function PayloadOf(d: Decoder, v: nat): seq<Byte>
    requires Admitted(d)
  {
    seq(d.byteOffset, _ => 0) + EncodeAs(d.endianness, PythonLength(d), v) + []
  }

  lemma PayloadHoldsField(d: Decoder, v: nat)
    requires Admitted(d) && d.kind != Boolean && v < Pow2(8 * PythonLength(d))
    ensures Addresses(d, PayloadOf(d, v)) && Field(d, PayloadOf(d, v)) == v
  {
    var n := PythonLength(d);
    SliceOf(seq(d.byteOffset, _ => 0), EncodeAs(d.endianness, n, v), []);
    EncodedMagnitude(n, v);
    LeadingReversed(Encode(n, v), n);
  }

  /** What of a profile's signal makes the two decoders interchangeable. */
  ghost predicate Interchangeable(d: Decoder, beyond: int -> Word)
    requires Admitted(d)
  {
    d.kind != Boolean ==>
      && (GoReads(d, beyond) <==> PythonMaskOf(d).Some?)
      && (GoReads(d, beyond) ==>
            MasksAlwaysAgree(8 * PythonLength(d), IsSigned(d), GoMaskOf(d, beyond).value, PythonMaskOf(d).value,
                             d.shift))
  }

  ghost predicate AnswerAlike(d: Decoder, data: seq<Byte>, beyond: int -> Word)
    requires Admitted(d)
  {
    GoDecoded(d, data, beyond) == PythonRaw(d, data)
  }

  lemma AlikeMeansSameReading(d: Decoder, data: seq<Byte>, v: nat, beyond: int -> Word)
    requires Admitted(d) && d.kind != Boolean && Addresses(d, data) && Field(d, data) == v
    requires AnswerAlike(d, data, beyond)
    ensures SameReading(d, v, beyond)
  {
    DecodersAgree(d, data, beyond);
  }

  lemma EveryFieldIsReadAlike(d: Decoder, v: nat, beyond: int -> Word)
    requires Admitted(d) && d.kind != Boolean && v < Pow2(8 * PythonLength(d))
    requires forall data :: AnswerAlike(d, data, beyond)
    ensures SameReading(d, v, beyond)
  {
    PayloadHoldsField(d, v);
    AlikeMeansSameReading(d, PayloadOf(d, v), v, beyond);
  }

  /** What a field with a single bit set tells of the two masks. */
  lemma BitTells(d: Decoder, i: nat, beyond: int -> Word)
    requires Admitted(d) && d.kind != Boolean && i < 8 * PythonLength(d) && SameReading(d, Pow2(i), beyond)
    requires GoReads(d, beyond)
    ensures d.shift <= i ==> SameBits(GoMaskOf(d, beyond).value, PythonMaskOf(d).value, i)
    ensures IsSigned(d) && i == 8 * PythonLength(d) - 1 ==>
      SignsAlike(8 * PythonLength(d), GoMaskOf(d, beyond).value, PythonMaskOf(d).value, d.shift)
  {
    OneBitTells(8 * PythonLength(d), IsSigned(d), GoMaskOf(d, beyond).value, PythonMaskOf(d).value, d.shift, i);
  }

  lemma ReadingsTell(d: Decoder, beyond: int -> Word)
    requires Admitted(d) && d.kind != Boolean
    requires forall i: nat :: i < 8 * PythonLength(d) ==> SameReading(d, Pow2(i), beyond)
    ensures Interchangeable(d, beyond)
  {
    var bits := 8 * PythonLength(d);
    assert SameReading(d, Pow2(bits - 1), beyond);
    if GoReads(d, beyond) {
      BitTells(d, bits - 1, beyond);
      forall i: nat | d.shift <= i < bits ensures SameBits(GoMaskOf(d, beyond).value, PythonMaskOf(d).value, i) {
        BitTells(d, i, beyond);
      }
    }
  }

  lemma AgreeingMeansInterchangeable(d: Decoder, beyond: int -> Word)
    requires Admitted(d) && d.kind != Boolean && forall data :: AnswerAlike(d, data, beyond)
    ensures Interchangeable(d, beyond)
  {
    forall i: nat | i < 8 * PythonLength(d) ensures SameReading(d, Pow2(i), beyond) {
      PowMonotone(i + 1, 8 * PythonLength(d));
      EveryFieldIsReadAlike(d, Pow2(i), beyond);
    }
    ReadingsTell(d, beyond);
  }

  lemma AlwaysMeansHere(v: nat, bits: nat, signed: bool, goMask: int, pythonMask: int, shift: nat)
    requires bits > 0 && MasksAlwaysAgree(bits, signed, goMask, pythonMask, shift)
    ensures MasksAgree(v, bits, signed, goMask, pythonMask, shift)
  {
    forall i: nat | shift <= i < bits ensures MasksMeet(v, goMask, pythonMask, i) {
      assert SameBits(goMask, pythonMask, i);
    }
  }

  lemma InterchangeableReads(d: Decoder, v: nat, beyond: int -> Word)
    requires Admitted(d) && d.kind != Boolean && Interchangeable(d, beyond)
    ensures SameReading(d, v, beyond)
  {
    if GoReads(d, beyond) {
      AlwaysMeansHere(v, 8 * PythonLength(d), IsSigned(d), GoMaskOf(d, beyond).value, PythonMaskOf(d).value, d.shift);
    }
  }

  lemma InterchangeableMeansAgreeing(d: Decoder, data: seq<Byte>, beyond: int -> Word)
    requires Admitted(d) && Interchangeable(d, beyond)
    ensures AnswerAlike(d, data, beyond)
  {
    if d.kind != Boolean && Addresses(d, data) {
      InterchangeableReads(d, Field(d, data), beyond);
    }
    DecodersAgree(d, data, beyond);
  }

  /**
   * A signal's decoders answer alike on every payload exactly when it is a flag, or both refuse it,
   * or both read it and its mask has the same bits for both where the field has any and, for a
   * signed field, above it the sign that Go would fill in.
   */
  lemma DecodersAlwaysAgree(d: Decoder, beyond: int -> Word)
    requires Admitted(d)
    ensures (forall data :: AnswerAlike(d, data, beyond)) <==> Interchangeable(d, beyond)
  {
    if Interchangeable(d, beyond) {
      forall data ensures AnswerAlike(d, data, beyond) { InterchangeableMeansAgreeing(d, data, beyond); }
    }
    if d.kind != Boolean && forall data :: AnswerAlike(d, data, beyond) {
      AgreeingMeansInterchangeable(d, beyond);
    }
  }

  lemma NoMaskAgrees(bits: nat, signed: bool, shift: nat)
    requires bits > 0 && (signed ==> shift == 0)
    ensures MasksAlwaysAgree(bits, signed, ALL_ONES, ALL_ONES, shift)
  {
    assert ALL_ONES == Alike(true);
    BitOfAlike(true, bits - 1);
    ShrOfSum(-1, Pow2(bits) - 1, bits);
    HighBitsOfOnes(bits);
  }

  lemma {:induction false} HighBitsOfOnes(k: nat)
    ensures Shr(-1, k) == -1
    decreases k
  {
    if k > 0 { HighBitsOfOnes(k - 1); }
  }

  /** A field of a stated width: signed with neither mask nor shift, or unsigned under any shift and any plain mask. */
  ghost predicate Usual(d: Decoder) {
    && (d.kind == ByteField ==> d.length.Some?) && PythonLength(d) <= 8
    && (IsSigned(d) ==> d.mask == None && d.shift == 0)
    && (d.mask.Some? ==> PlainMask(d.mask.value))
  }

  lemma UsualFieldsAgree(d: Decoder, data: seq<Byte>, beyond: int -> Word)
    requires Admitted(d) && Usual(d)
    ensures GoDecoded(d, data, beyond) == PythonRaw(d, data)
  {
    if d.mask.Some? { MasksReadAlike(d.mask.value); }
    else if d.kind != Boolean { NoMaskAgrees(8 * PythonLength(d), IsSigned(d), d.shift); }
    InterchangeableMeansAgreeing(d, data, beyond);
  }

  // ------------------------------------------------------------------ kind by kind

  /** Read in the order stated, and nothing masked or shifted away. */
  predicate Whole(d: Decoder, before: seq<Byte>) {
    d.byteOffset == |before| && d.endianness != Other && d.mask == None && d.shift == 0
  }

  lemma WholeFieldIsRead(d: Decoder, before: seq<Byte>, field: seq<Byte>, after: seq<Byte>, beyond: int -> Word)
    requires d.kind != Boolean && Whole(d, before) && GoLength(d) == PythonLength(d) == |field| && 1 <= |field| <= 8
    ensures GoDecoded(d, before + field + after, beyond) == Number(FieldValue(d.endianness, IsSigned(d), field))
    ensures Admitted(d) ==> PythonRaw(d, before + field + after) == Number(FieldValue(d.endianness, IsSigned(d), field))
  {
    SliceOf(before, field, after);
    if Admitted(d) { UsualFieldsAgree(d, before + field + after, beyond); }
  }

  lemma PowersOfBytes()
    ensures Pow2(7) == 128 && Pow2(8) == 256 && Pow2(15) == 32768 && Pow2(16) == 65536
    ensures Pow2(31) == 2147483648 && Pow2(32) == 4294967296
  {
    assert Pow2(3) == 8 && Pow2(7) == 16 * Pow2(3);
    PowerOfByte(0);
    PowerOfByte(7);
    PowerOfByte(8);
    PowerOfByte(15);
    PowerOfByte(16);
    PowerOfByte(23);
    PowerOfByte(24);
  }

  /** One byte, of either order: 0 to 255, or -128 to 127. */
  lemma OneByteKinds(d: Decoder, before: seq<Byte>, b: Byte, after: seq<Byte>, beyond: int -> Word)
    requires (d.kind == UInt8 || d.kind == Int8) && Whole(d, before)
    ensures var n := if d.kind == Int8 && b >= 128 then b - 256 else b;
      && GoDecoded(d, before + [b] + after, beyond) == Number(n)
      && (Admitted(d) ==> PythonRaw(d, before + [b] + after) == Number(n))
  {
    PowersOfBytes();
    assert Leading(d.endianness, [b], 1) == 256 * Leading(d.endianness, [b], 0) + b;
    WholeFieldIsRead(d, before, [b], after, beyond);
  }

  /** Two bytes: 0 to 65535, or -32768 to 32767. */
  lemma TwoByteKinds(d: Decoder, before: seq<Byte>, b0: Byte, b1: Byte, after: seq<Byte>, beyond: int -> Word)
    requires (d.kind == UInt16 || d.kind == Int16) && Whole(d, before)
    ensures var m := if d.endianness == Big then 256 * b0 + b1 else 256 * b1 + b0;
      var n := if d.kind == Int16 && m >= 32768 then m - 65536 else m;
      && GoDecoded(d, before + [b0, b1] + after, beyond) == Number(n)
      && (Admitted(d) ==> PythonRaw(d, before + [b0, b1] + after) == Number(n))
  {
    var e, field: seq<Byte> := d.endianness, [b0, b1];
    PowersOfBytes();
    assert Leading(e, field, 2) == 256 * Leading(e, field, 1) + field[Place(e, 2, 1)];
    assert Leading(e, field, 1) == 256 * Leading(e, field, 0) + field[Place(e, 2, 0)];
    WholeFieldIsRead(d, before, field, after, beyond);
  }

  /** Four bytes, the most significant first. */
  function FourBytes(a: nat, b: nat, c: nat, d: nat): nat {
    16777216 * a + 65536 * b + 256 * c + d
  }

  lemma FourBytesSpell(e: Endianness, field: seq<Byte>)
    requires |field| == 4
    ensures Magnitude(e, field) ==
      if e == Little then FourBytes(field[3], field[2], field[1], field[0])
      else FourBytes(field[0], field[1], field[2], field[3])
  {
    assert Leading(e, field, 4) == 256 * Leading(e, field, 3) + field[Place(e, 4, 3)];
    assert Leading(e, field, 3) == 256 * Leading(e, field, 2) + field[Place(e, 4, 2)];
    assert Leading(e, field, 2) == 256 * Leading(e, field, 1) + field[Place(e, 4, 1)];
    assert Leading(e, field, 1) == 256 * Leading(e, field, 0) + field[Place(e, 4, 0)];
  }

  /** Four bytes: 0 to 4294967295, or -2147483648 to 2147483647. */
  lemma FourByteKinds(d: Decoder, before: seq<Byte>, field: seq<Byte>, after: seq<Byte>, beyond: int -> Word)
    requires (d.kind == UInt32 || d.kind == Int32) && Whole(d, before) && |field| == 4
    ensures var m :=
        if d.endianness == Big then FourBytes(field[0], field[1], field[2], field[3])
        else FourBytes(field[3], field[2], field[1], field[0]);
      var n := if d.kind == Int32 && m >= 2147483648 then m - 4294967296 else m;
      && GoDecoded(d, before + field + after, beyond) == Number(n)
      && (Admitted(d) ==> PythonRaw(d, before + field + after) == Number(n))
  {
    PowersOfBytes();
    FourBytesSpell(d.endianness, field);
    WholeFieldIsRead(d, before, field, after, beyond);
  }

  /** As many bytes as the definition says, one to eight, as an unsigned number or in two's complement. */
  lemma ByteFields(d: Decoder, before: seq<Byte>, field: seq<Byte>, after: seq<Byte>, beyond: int -> Word)
    requires d.kind == ByteField && d.length == Some(|field|) && 1 <= |field| <= 8 && Whole(d, before)
    ensures var m := Magnitude(d.endianness, field);
      var n := if d.signed && 2 * m >= Pow2(8 * |field|) then m - Pow2(8 * |field|) else m;
      && GoDecoded(d, before + field + after, beyond) == Number(n)
      && (Admitted(d) ==> PythonRaw(d, before + field + after) == Number(n))
  {
    HalfOf(8 * |field|);
    WholeFieldIsRead(d, before, field, after, beyond);
  }

  /** How many bytes a kind takes, and the numbers it can hold. */
  predicate Holds(kind: Kind, n: nat, v: int) {
    match kind
    case UInt8 => n == 1 && 0 <= v <= 255
    case Int8 => n == 1 && -128 <= v <= 127
    case UInt16 => n == 2 && 0 <= v <= 65535
    case Int16 => n == 2 && -32768 <= v <= 32767
    case UInt32 => n == 4 && 0 <= v <= 4294967295
    case Int32 => n == 4 && -2147483648 <= v <= 2147483647
    case ByteField | Boolean => false
  }

  /** Every number that a kind can hold, written in its bytes anywhere in a payload, is read back by both decoders. */
  lemma EveryKindRoundTrips(d: Decoder, n: nat, before: seq<Byte>, v: int, after: seq<Byte>, beyond: int -> Word)
    requires Holds(d.kind, n, v) && Whole(d, before)
    ensures GoDecoded(d, before + EncodeAs(d.endianness, n, v) + after, beyond) == Number(v)
    ensures Admitted(d) ==> PythonRaw(d, before + EncodeAs(d.endianness, n, v) + after) == Number(v)
  {
    PowersOfBytes();
    EncodedFieldIsRead(d, before, v, after, beyond);
    if Admitted(d) { UsualFieldsAgree(d, before + EncodeAs(d.endianness, n, v) + after, beyond); }
  }

  /** A payload that ends within the field is refused by both. */
  lemma ShortPayloadIsRefused(d: Decoder, n: nat, v: int, data: seq<Byte>, beyond: int -> Word)
    requires Holds(d.kind, n, v) && d.byteOffset >= 0 && |data| < d.byteOffset + n
    ensures GoDecoded(d, data, beyond) == Refused
    ensures Admitted(d) ==> PythonRaw(d, data) == Refused
  {}

  /** A flag is one bit of one byte, the lowest first; a bit or a byte that is not there is refused. */
  lemma FlagIsOneBit(d: Decoder, data: seq<Byte>, beyond: int -> Word)
    requires d.kind == Boolean
    ensures GoDecoded(d, data, beyond) ==
      if 0 <= d.byteOffset < |data| && 0 <= d.bit <= 7 then
        Bit(data[d.byteOffset] / [1, 2, 4, 8, 16, 32, 64, 128][d.bit] % 2 == 1)
      else Refused
  {
    if 0 <= d.byteOffset < |data| && 0 <= d.bit <= 7 {
      ByteShifted(data[d.byteOffset], d.bit);
    }
  }

  lemma ByteShifted(b: Byte, bit: nat)
    requires bit <= 7
    ensures Shr(b, bit) == b / [1, 2, 4, 8, 16, 32, 64, 128][bit]
  {
    ShrIsQuotient(b, bit);
    PowersOfBytes();
    assert Pow2(0) == 1 && Pow2(1) == 2 && Pow2(2) == 4 && Pow2(3) == 8;
    assert Pow2(4) == 16 && Pow2(5) == 32 && Pow2(6) == 64;
  }

  lemma ShrIsQuotient(a: nat, k: nat)
    ensures Shr(a, k) == a / Pow2(k)
  {
    LowAndShr(a, k);
    Quotient(a, Shr(a, k), Low(a, k), Pow2(k));
  }

  lemma Quotient(a: nat, q: int, r: nat, p: nat)
    requires a == q * p + r && r < p
    ensures q == a / p
  {
    var d := a / p;
    assert q > d ==> q * p >= (d + 1) * p;
    assert q < d ==> (q + 1) * p <= d * p;
  }

  predicate BinaryDigit(n: nat, k: nat) {
    n / Pow2(k) % 2 == 1
  }

  lemma DigitIsBit(n: nat, k: nat)
    ensures BinaryDigit(n, k) <==> BitSet(n, k)
  {
    ShrIsQuotient(n, k);
  }

  lemma BitsUnderMask(v: nat, bits: nat, mask: int, shift: nat, k: nat)
    requires bits > 0 && v < Pow2(bits)
    ensures Shr(And(v, mask), shift) >= 0
    ensures BitSet(Shr(And(v, mask), shift), k) <==> BitSet(v, shift + k) && BitSet(mask, shift + k)
  {
    UnsignedBits(v, bits, mask, shift, k);
    if shift + k >= bits { HighBits(v, bits, shift + k); }
  }

  lemma DigitsUnderMask(v: nat, n: nat, mask: nat, shift: nat, k: nat)
    requires BitSet(n, k) <==> BitSet(v, shift + k) && BitSet(mask, shift + k)
    ensures BinaryDigit(n, k) <==> BinaryDigit(v, shift + k) && BinaryDigit(mask, shift + k)
  {
    DigitIsBit(n, k);
    DigitIsBit(v, shift + k);
    DigitIsBit(mask, shift + k);
  }

  lemma ShiftedAlone(v: nat, shift: nat)
    ensures Shr(And(v, ALL_ONES), shift) == v / Pow2(shift)
  {
    ShrIsQuotient(v, shift);
  }

  /** An unsigned field of its kind's width, anywhere in a payload, under a mask that Go can read and a shift. */
  predicate Masked(d: Decoder, before: seq<Byte>, field: seq<Byte>, beyond: int -> Word) {
    && d.kind in {UInt8, UInt16, UInt32} && Holds(d.kind, |field|, 0)
    && d.byteOffset == |before| && d.endianness != Other && d.shift >= 0
    && (d.mask.Some? ==> GoMask(d.mask.value, beyond).Some?)
  }

  lemma MaskedIsRead(d: Decoder, before: seq<Byte>, field: seq<Byte>, after: seq<Byte>, beyond: int -> Word)
    requires Masked(d, before, field, beyond)
    ensures GoMaskOf(d, beyond).Some?
    ensures GoDecoded(d, before + field + after, beyond)
         == Number(Shr(And(Magnitude(d.endianness, field), GoMaskOf(d, beyond).value), d.shift))
  {
    SliceOf(before, field, after);
  }

  lemma DigitsOfMasked(d: Decoder, m: nat, bits: nat, beyond: int -> Word, k: nat)
    requires m < Pow2(bits) && bits > 0 && d.shift >= 0 && GoMaskOf(d, beyond).Some?
    ensures var n := Shr(And(m, GoMaskOf(d, beyond).value), d.shift);
      && n >= 0
      && (d.mask.None? ==> n == m / Pow2(d.shift))
      && (d.mask.Some? ==>
            (BinaryDigit(n, k) <==>
             BinaryDigit(m, d.shift + k) && BinaryDigit(GoMask(d.mask.value, beyond).value, d.shift + k)))
  {
    var mask := GoMaskOf(d, beyond).value;
    BitsUnderMask(m, bits, mask, d.shift, k);
    if d.mask.Some? {
      DigitsUnderMask(m, Shr(And(m, mask), d.shift), mask, d.shift, k);
    } else {
      ShiftedAlone(m, d.shift);
    }
  }

  /**
   * Binary digit `k` of the answer is digit `shift + k` of the field, where the mask has one too.
   * Without a mask it is the field divided by two to the shift.
   */
  lemma MaskedAndShifted(d: Decoder, before: seq<Byte>, field: seq<Byte>, after: seq<Byte>, beyond: int -> Word, k: nat)
    requires Masked(d, before, field, beyond)
    ensures var answer, m := GoDecoded(d, before + field + after, beyond), Magnitude(d.endianness, field);
      && answer.Number? && answer.n >= 0
      && (d.mask.None? ==> answer.n == m / Pow2(d.shift))
      && (d.mask.Some? ==>
            (BinaryDigit(answer.n, k) <==>
             BinaryDigit(m, d.shift + k) && BinaryDigit(GoMask(d.mask.value, beyond).value, d.shift + k)))
  {
    MaskedIsRead(d, before, field, after, beyond);
    LeadingFits(d.endianness, field, |field|);
    DigitsOfMasked(d, Magnitude(d.endianness, field), 8 * |field|, beyond, k);
  }

  // ------------------------------------------------------------------ inputs on which they differ

  /** A signed byte 0x80 shifted by one is 64 in Go and -64 in Python. */
  lemma SignedShiftDiffers(d: Decoder, beyond: int -> Word)
    requires Admitted(d) && d.kind == Int8 && d.byteOffset == 0 && d.mask == None && d.shift == 1
    ensures GoDecoded(d, [0x80], beyond) == Number(64) && PythonRaw(d, [0x80]) == Number(-64)
  {
    var data: seq<Byte> := [0x80];
    assert data[0..][..1] == data && data[0..1] == data;
    assert Leading(d.endianness, data, 1) == 256 * Leading(d.endianness, data, 0) + 0x80;
    assert Pow2(4) == 16 && Pow2(8) == 16 * Pow2(4) && Pow2(7) == 8 * Pow2(4);
  }

  lemma NextToSignificant(beyond: int -> Word)
    ensures GoMask(NumberMask(SIGNIFICANT + 1), beyond) == Some(SIGNIFICANT)
  {
    assert Excess(SIGNIFICANT + 1) == 1 + Excess(SIGNIFICANT / 2) == 1;
    assert Low(SIGNIFICANT + 1, 1) == 1 && Shr(SIGNIFICANT + 1, 1) == SIGNIFICANT / 2;
    assert Rounded(SIGNIFICANT + 1) == SIGNIFICANT;
    WordsAreSmall(SIGNIFICANT);
  }

  /** The lowest bit alone, under an even mask and under an odd one. */
  lemma LowestBitUnder(half: nat, bits: nat)
    requires half > 0 && bits > 0
    ensures GoNumber(1, bits, false, 2 * half, 0) == 0 && PythonNumber(1, bits, false, 2 * half + 1, 0) == 1
  {
    AndUnfold(1, 2 * half);
    AndUnfold(1, 2 * half + 1);
    AndExtremes(half);
  }

  lemma GoOnOne(d: Decoder, data: seq<Byte>, beyond: int -> Word, half: nat)
    requires Admitted(d) && d.kind != Boolean && !IsSigned(d) && d.shift == 0 && GoReads(d, beyond) && half > 0
    requires Addresses(d, data) && Field(d, data) == 1 && GoMaskOf(d, beyond) == Some(2 * half)
    ensures GoDecoded(d, data, beyond) == Number(0)
  {
    GoReadsField(d, data, beyond);
    LowestBitUnder(half, 8 * PythonLength(d));
  }

  lemma PythonOnOne(d: Decoder, data: seq<Byte>, half: nat)
    requires Admitted(d) && d.kind != Boolean && !IsSigned(d) && d.shift == 0 && half > 0
    requires Addresses(d, data) && Field(d, data) == 1 && PythonMaskOf(d) == Some(2 * half + 1)
    ensures PythonRaw(d, data) == Number(1)
  {
    PythonReadsField(d, data);
    LowestBitUnder(half, 8 * PythonLength(d));
  }

  /** The number 2^53 + 1 is no float: Go masks with 2^53 and loses the lowest bit, Python keeps it. */
  lemma LargeNumberMaskDiffers(d: Decoder, beyond: int -> Word)
    requires Admitted(d) && d.kind == ByteField && d.length == Some(8) && !d.signed && d.shift == 0
    requires d.mask == Some(NumberMask(SIGNIFICANT + 1))
    ensures GoDecoded(d, PayloadOf(d, 1), beyond) == Number(0) && PythonRaw(d, PayloadOf(d, 1)) == Number(1)
  {
    PowMonotone(1, 8 * PythonLength(d));
    PayloadHoldsField(d, 1);
    NextToSignificant(beyond);
    GoOnOne(d, PayloadOf(d, 1), beyond, SIGNIFICANT / 2);
    PythonOnOne(d, PayloadOf(d, 1), SIGNIFICANT / 2);
  }
}
