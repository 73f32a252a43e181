/**
 * Modbus registers: the kinds a configuration names, the values a read produces, and the decoding
 * of the 16-bit words a device returns (the little-endian build of src/cli/src/modbus/register.rs).
 */
module Register {
  import opened Bits
  import opened Utf8
  import opened Wrappers

  type Address = u16
  type Quantity = u16

  datatype NumericKind = NumericKind(multiplier: Option<real>)

  datatype RegisterKind =
    | U16(numeric: NumericKind)
    | U32(numeric: NumericKind)
    | U64(numeric: NumericKind)
    | S16(numeric: NumericKind)
    | S32(numeric: NumericKind)
    | S64(numeric: NumericKind)
    | F32(numeric: NumericKind)
    | F64(numeric: NumericKind)
    | String(length: Quantity)
  {
    /** A kind the model decodes: a string, or a number read without a multiplier. */
    predicate Decodable() { String? || numeric.multiplier.None? }
  }

  /** Floating-point values are kept as their IEEE-754 bit patterns. */
  datatype RegisterValue =
    | U16(u16: u16)
    | U32(u32: u32)
    | U64(u64: u64)
    | S16(s16: i16)
    | S32(s32: i32)
    | S64(s64: i64)
    | F32(f32Bits: u32)
    | F64(f64Bits: u64)
    | String(text: Text)
  {
    predicate Displayable() { !F32? && !F64? }
  }

  /** A compiled regular expression, known by its source pattern; matching is a parameter. */
  datatype Regex = Regex(source: Text)

  datatype MeasurementRegister<S> = MeasurementRegister(address: Address, storage: S, name: Text)
  datatype DetectRegister<S> = DetectRegister(address: Address, storage: S, pattern: Either<Text, Regex>)
  datatype IdRegister<S> = IdRegister(address: Address, storage: S)

  /** `RegisterStorage::quantity` for a kind: how many 16-bit registers it spans. */
  function KindQuantity(kind: RegisterKind): Quantity
  {
    match kind
    case U16(_) => 1
    case U32(_) => 2
    case U64(_) => 4
    case S16(_) => 1
    case S32(_) => 2
    case S64(_) => 4
    case F32(_) => 2
    case F64(_) => 4
    case String(length) => length
  }

  /** `RegisterStorage::quantity` for a value; a string's is its byte length cast to `u16`. */
  function ValueQuantity(value: RegisterValue): Quantity
  {
    match value
    case U16(_) => 1
    case U32(_) => 2
    case U64(_) => 4
    case S16(_) => 1
    case S32(_) => 2
    case S64(_) => 4
    case F32(_) => 2
    case F64(_) => 4
    case String(text) => |text| % 0x1_0000
  }

  /** `parse_numeric_bytes`: the words in reverse order, each low byte first. */
  function NumericBytes(data: seq<u16>): (bytes: seq<byte>)
    ensures |bytes| == 2 * |data|
  {
    if |data| == 0 then []
    else
      var last := data[|data| - 1];
      [LowByte(last), HighByte(last)] + NumericBytes(data[..|data| - 1])
  }

  /** Byte i of `parse_numeric_bytes` pairs come from the i-th word counted from the end. */
  lemma {:induction false} NumericBytesLayout(data: seq<u16>, i: nat)
    requires i < |data|
    ensures NumericBytes(data)[2 * i] == data[|data| - 1 - i] % 256
    ensures NumericBytes(data)[2 * i + 1] == data[|data| - 1 - i] / 256
  {
    if i > 0 {
      var init := data[..|data| - 1];
      NumericBytesLayout(init, i - 1);
      assert init[|init| - 1 - (i - 1)] == data[|data| - 1 - i];
      assert NumericBytes(data)[2 * i] == NumericBytes(init)[2 * (i - 1)];
      assert NumericBytes(data)[2 * i + 1] == NumericBytes(init)[2 * (i - 1) + 1];
    }
  }

  /** `parse_string_bytes`: the words in order, each high byte first. */
  function StringBytes(data: seq<u16>): (bytes: seq<byte>)
    ensures |bytes| == 2 * |data|
  {
    if |data| == 0 then [] else [HighByte(data[0]), LowByte(data[0])] + StringBytes(data[1..])
  }

  /** Bytes 2i and 2i+1 of `parse_string_bytes` are the high and low byte of word i. */
  lemma {:induction false} StringBytesLayout(data: seq<u16>, i: nat)
    requires i < |data|
    ensures StringBytes(data)[2 * i] == data[i] / 256
    ensures StringBytes(data)[2 * i + 1] == data[i] % 256
  {
    var head := [HighByte(data[0]), LowByte(data[0])];
    var rest := StringBytes(data[1..]);
    assert StringBytes(data) == head + rest;
    if i > 0 {
      var k := 2 * (i - 1);
      assert 2 * i == k + 2;
      StringBytesLayout(data[1..], i - 1);
      assert (head + rest)[k + 2] == rest[k] && (head + rest)[k + 3] == rest[k + 1];
    }
  }

  /**
   * `from_ne_bytes` on a little-endian target applied to `parse_numeric_bytes`: the first register
   * is the most significant word.
   */
  lemma {:induction false} NumericBytesValue(data: seq<u16>)
    ensures LeValue(NumericBytes(data)) == BeWords(data)
  {
    if |data| > 0 {
      var last := data[|data| - 1];
      var init := data[..|data| - 1];
      var rest := NumericBytes(init);
      var bytes := [LowByte(last), HighByte(last)] + rest;
      assert bytes[1..][1..] == rest;
      NumericBytesValue(init);
      calc {
        LeValue(bytes);
        LowByte(last) + 256 * (HighByte(last) + 256 * LeValue(rest));
        last % 256 + 256 * (last / 256) + 0x1_0000 * BeWords(init);
        BeWords(data);
      }
    }
  }

  /** The unsigned value of n words read through the little-endian path, with its bound. */
  function WordsValue(data: seq<u16>, n: nat): (v: nat)
    requires |data| == n
    ensures v == LeValue(NumericBytes(data)) && v < Pow2(16 * n)
    ensures n == 1 ==> v < 0x1_0000
    ensures n == 2 ==> v < 0x1_0000_0000
    ensures n == 4 ==> v < 0x1_0000_0000_0000_0000
  {
    NumericBytesValue(data);
    BeWordsBound(data);
    Pow2Constants();
    BeWords(data)
  }

  /** The two's-complement reading of n words through the little-endian path. */
  function SignedWordsValue(data: seq<u16>, n: nat): (v: int)
    requires |data| == n && n >= 1
    ensures v == Signed(WordsValue(data, n), 16 * n)
    ensures v % Pow2(16 * n) == WordsValue(data, n)
    ensures n == 1 ==> -0x8000 <= v < 0x8000
    ensures n == 2 ==> -0x8000_0000 <= v < 0x8000_0000
    ensures n == 4 ==> -0x8000_0000_0000_0000 <= v < 0x8000_0000_0000_0000
  {
    var u := WordsValue(data, n);
    SignedRange(u, 16 * n);
    Pow2Constants();
    assert n == 1 ==> 16 * n - 1 == 15;
    assert n == 2 ==> 16 * n - 1 == 31;
    assert n == 4 ==> 16 * n - 1 == 63;
    Signed(u, 16 * n)
  }

  /**
   * The value arm of `parse` for a kind without a multiplier: an integer or float kind needs exactly
   * as many bytes as its Rust type has (the slice `try_into` fails otherwise), a string needs UTF-8.
   */
  function ParseValue(kind: RegisterKind, data: seq<u16>): Option<RegisterValue>
    requires kind.Decodable()
  {
    match kind
    case U16(_) => if |data| != 1 then None else Some(RegisterValue.U16(WordsValue(data, 1)))
    case U32(_) => if |data| != 2 then None else Some(RegisterValue.U32(WordsValue(data, 2)))
    case U64(_) => if |data| != 4 then None else Some(RegisterValue.U64(WordsValue(data, 4)))
    case S16(_) =>
      if |data| != 1 then None else Some(RegisterValue.S16(SignedWordsValue(data, 1)))
    case S32(_) =>
      if |data| != 2 then None else Some(RegisterValue.S32(SignedWordsValue(data, 2)))
    case S64(_) =>
      if |data| != 4 then None else Some(RegisterValue.S64(SignedWordsValue(data, 4)))
    case F32(_) => if |data| != 2 then None else Some(RegisterValue.F32(WordsValue(data, 2)))
    case F64(_) => if |data| != 4 then None else Some(RegisterValue.F64(WordsValue(data, 4)))
    case String(_) => ParseString(data)
  }

  /** The string arm of `parse`: the high-byte-first bytes, when they are UTF-8. */
  function ParseString(data: seq<u16>): Option<RegisterValue>
  {
    var bytes := StringBytes(data);
    if ValidUtf8(bytes) then Some(RegisterValue.String(bytes)) else None
  }

  /** `parse` for a measurement register: the decoded value under the same address and name. */
  function ParseMeasurement(register: MeasurementRegister<RegisterKind>, data: seq<u16>)
    : (r: Option<MeasurementRegister<RegisterValue>>)
    requires register.storage.Decodable()
    ensures r.Some? <==> ParseValue(register.storage, data).Some?
    ensures r.Some? ==>
      (r.value.address == register.address && r.value.name == register.name
       && r.value.storage == ParseValue(register.storage, data).value)
  {
    match ParseValue(register.storage, data)
    case None => None
    case Some(value) => Some(MeasurementRegister(register.address, value, register.name))
  }

  /** `parse` for a detect register: the decoded value under the same address and pattern. */
  function ParseDetect(register: DetectRegister<RegisterKind>, data: seq<u16>)
    : (r: Option<DetectRegister<RegisterValue>>)
    requires register.storage.Decodable()
    ensures r.Some? <==> ParseValue(register.storage, data).Some?
    ensures r.Some? ==>
      (r.value.address == register.address && r.value.pattern == register.pattern
       && r.value.storage == ParseValue(register.storage, data).value)
  {
    match ParseValue(register.storage, data)
    case None => None
    case Some(value) => Some(DetectRegister(register.address, value, register.pattern))
  }

  /** `parse` for an id register: the decoded value under the same address. */
  function ParseId(register: IdRegister<RegisterKind>, data: seq<u16>)
    : (r: Option<IdRegister<RegisterValue>>)
    requires register.storage.Decodable()
    ensures r.Some? <==> ParseValue(register.storage, data).Some?
    ensures r.Some? ==>
      (r.value.address == register.address && r.value.storage == ParseValue(register.storage, data).value)
  {
    match ParseValue(register.storage, data)
    case None => None
    case Some(value) => Some(IdRegister(register.address, value))
  }

  /** `Display` for a value (floats are not modelled). */
  function Display(value: RegisterValue): Text
    requires value.Displayable()
  {
    match value
    case U16(v) => IntegerText(v)
    case U32(v) => IntegerText(v)
    case U64(v) => IntegerText(v)
    case S16(v) => IntegerText(v)
    case S32(v) => IntegerText(v)
    case S64(v) => IntegerText(v)
    case String(text) => text
  }

  /** `DetectRegister::matches`: a literal must equal the displayed value, a regex must match it. */
  function Matches(register: DetectRegister<RegisterValue>, isMatch: (Regex, Text) -> bool): bool
    requires register.storage.Displayable()
  {
    match register.pattern
    case Left(literal) => literal == Display(register.storage)
    case Right(regex) => isMatch(regex, Display(register.storage))
  }

  /** `IdRegister::id`: the displayed value. */
  function Id(register: IdRegister<RegisterValue>): Text
    requires register.storage.Displayable()
  {
    Display(register.storage)
  }

  /**
   * A numeric kind decodes exactly when the device returned the kind's quantity of registers, and the
   * decoded value spans that same quantity.
   */
  lemma ParseNumericQuantity(kind: RegisterKind, data: seq<u16>)
    requires !kind.String? && kind.Decodable()
    ensures ParseValue(kind, data).Some? <==> |data| == KindQuantity(kind)
    ensures ParseValue(kind, data).Some? ==> ValueQuantity(ParseValue(kind, data).value) == KindQuantity(kind)
  {
  }

  /**
   * A string kind decodes exactly when the high-byte-first bytes are UTF-8; its value's quantity is
   * the byte count, twice the register count, truncated to 16 bits.
   */
  lemma ParseStringQuantity(kind: RegisterKind, data: seq<u16>)
    requires kind.String?
    ensures ParseValue(kind, data).Some? <==> ValidUtf8(StringBytes(data))
    ensures ParseValue(kind, data).Some? ==>
      ParseValue(kind, data).value == RegisterValue.String(StringBytes(data))
      && ValueQuantity(ParseValue(kind, data).value) == (2 * |data|) % 0x1_0000
  {
    StringArm(kind, data);
    StringArmValue(data);
  }

  lemma StringArm(kind: RegisterKind, data: seq<u16>)
    requires kind.String?
    ensures ParseValue(kind, data) == ParseString(data)
  {
  }

  lemma StringArmValue(data: seq<u16>)
    ensures ParseString(data).Some? <==> ValidUtf8(StringBytes(data))
    ensures ParseString(data).Some? ==> ParseString(data).value == RegisterValue.String(StringBytes(data))
    ensures ParseString(data).Some? ==> ValueQuantity(ParseString(data).value) == (2 * |data|) % 0x1_0000
  {
  }

  /** An unsigned kind reads its registers as one big-endian number: the first register is the high word. */
  lemma ParseUnsigned(kind: RegisterKind, data: seq<u16>)
    requires (kind.U16? || kind.U32? || kind.U64?) && kind.Decodable() && |data| == KindQuantity(kind)
    ensures ParseValue(kind, data) == Some(
      if kind.U16? then RegisterValue.U16(data[0])
      else if kind.U32? then RegisterValue.U32(data[0] as int * 0x1_0000 + data[1] as int)
      else RegisterValue.U64(
        data[0] as int * 0x1_0000_0000_0000 + data[1] as int * 0x1_0000_0000 + data[2] as int * 0x1_0000
        + data[3] as int))
  {
    NumericBytesValue(data);
    assert BeWords(data[..1]) == data[0] by {
      assert data[..1][..0] == [];
    }
    if |data| >= 2 {
      assert BeWords(data[..2]) == data[0] as int * 0x1_0000 + data[1] as int by {
        assert data[..2][..1] == data[..1];
      }
    }
    if |data| == 4 {
      assert data[..3][..2] == data[..2];
      assert data[..4] == data;
      assert BeWords(data[..3]) == BeWords(data[..2]) * 0x1_0000 + data[2];
      assert BeWords(data) == BeWords(data[..3]) * 0x1_0000 + data[3];
      Horner4(data[0], data[1], data[2], data[3]);
    }
  }

  /**
   * A signed kind reads the same big-endian number as two's complement: the value is in the type's
   * range and agrees with the unsigned reading modulo 2^bits.
   */
  lemma ParseSigned(kind: RegisterKind, data: seq<u16>)
    requires (kind.S16? || kind.S32? || kind.S64?) && kind.Decodable() && |data| == KindQuantity(kind)
    ensures ParseValue(kind, data).Some?
    ensures var v := ParseValue(kind, data).value;
      var bits := 16 * |data|;
      var s := if v.S16? then v.s16 else if v.S32? then v.s32 else v.s64;
      (kind.S16? ==> v.S16?) && (kind.S32? ==> v.S32?) && (kind.S64? ==> v.S64?)
      && -(Pow2(bits - 1) as int) <= s < Pow2(bits - 1)
      && s % Pow2(bits) == BeWords(data)
      && (s >= 0 <==> BeWords(data) < Pow2(bits - 1))
  {
    var u := WordsValue(data, |data|);
    NumericBytesValue(data);
    SignedRange(u, 16 * |data|);
  }

  /** A literal pattern on an integer register matches exactly the value whose decimal text it is. */
  lemma MatchesLiteralInteger(register: DetectRegister<RegisterValue>, literal: Text, isMatch: (Regex, Text) -> bool)
    requires register.pattern == Left(literal)
    requires register.storage.Displayable() && !register.storage.String?
    ensures Matches(register, isMatch) <==> literal == IntegerText(IntegerOf(register.storage))
    ensures forall other: RegisterValue {:trigger IntegerOf(other)} ::
      (other.Displayable() && !other.String? && Matches(register, isMatch)
       && Matches(register.(storage := other), isMatch)) ==> IntegerOf(other) == IntegerOf(register.storage)
  {
    forall other: RegisterValue | other.Displayable() && !other.String? && Matches(register, isMatch)
      && Matches(register.(storage := other), isMatch)
      ensures IntegerOf(other) == IntegerOf(register.storage)
    {
      IntegerTextInjective(IntegerOf(other), IntegerOf(register.storage));
    }
  }

  /** The integer an integer value holds. */
  function IntegerOf(value: RegisterValue): int
    requires value.Displayable() && !value.String?
  {
    match value
    case U16(v) => v
    case U32(v) => v
    case U64(v) => v
    case S16(v) => v
    case S32(v) => v
    case S64(v) => v
  }

  /** A string register is identified, and matched against a literal, by its decoded text itself. */
  lemma StringRegisterText(kind: RegisterKind, data: seq<u16>, address: Address, literal: Text,
                           isMatch: (Regex, Text) -> bool)
    requires kind.String? && ValidUtf8(StringBytes(data))
    ensures ParseId(IdRegister(address, kind), data).Some?
    ensures Id(ParseId(IdRegister(address, kind), data).value) == StringBytes(data)
    ensures ParseDetect(DetectRegister(address, kind, Left(literal)), data).Some?
    ensures Matches(ParseDetect(DetectRegister(address, kind, Left(literal)), data).value, isMatch)
      <==> literal == StringBytes(data)
  {
  }
}
