/**
 * The probe and the agent decode registers the same way: the agent's little-endian path through
 * `parse_numeric_bytes` and `from_ne_bytes` (src/cli/src/modbus/register.rs) yields the numbers the
 * probe's shift-and-or converters (src/probe/probe/client.py) compute, and `parse_string_bytes`
 * yields the probe's raw bytes.
 */
module ProbeAgreement {
  import opened Bits
  import opened Wrappers
  import opened Register
  import ProbeClient

  const Plain := NumericKind(None)

  lemma Uint32Agrees(first: u16, second: u16)
    ensures var v := ParseValue(RegisterKind.U32(Plain), [first, second]);
      v.Some? && v.value.U32? && v.value.u32 == ProbeClient.ToUint32(first, second)
  {
    ParseUnsigned(RegisterKind.U32(Plain), [first, second]);
    ProbeClient.Uint32Value(first, second);
  }

  lemma Uint64Agrees(first: u16, second: u16, third: u16, fourth: u16)
    ensures var v := ParseValue(RegisterKind.U64(Plain), [first, second, third, fourth]);
      v.Some? && v.value.U64? && v.value.u64 == ProbeClient.ToUint64(first, second, third, fourth)
  {
    ParseUnsigned(RegisterKind.U64(Plain), [first, second, third, fourth]);
    ProbeClient.Uint64Value(first, second, third, fourth);
  }

  lemma Sint16Agrees(register: u16)
    ensures var v := ParseValue(RegisterKind.S16(Plain), [register]);
      v.Some? && v.value.S16? && v.value.s16 == ProbeClient.ToSint16(register)
  {
    ParseUnsigned(RegisterKind.U16(Plain), [register]);
    ProbeClient.Sint16Value(register);
  }

  lemma Sint32Agrees(upperHalf: u16, lowerHalf: u16)
    ensures var v := ParseValue(RegisterKind.S32(Plain), [upperHalf, lowerHalf]);
      v.Some? && v.value.S32? && v.value.s32 == ProbeClient.ToSint32(upperHalf, lowerHalf)
  {
    ParseUnsigned(RegisterKind.U32(Plain), [upperHalf, lowerHalf]);
    ProbeClient.Uint32Value(upperHalf, lowerHalf);
    ProbeClient.Sint32Value(upperHalf, lowerHalf);
  }

  lemma Sint64Agrees(first: u16, second: u16, third: u16, fourth: u16)
    ensures var v := ParseValue(RegisterKind.S64(Plain), [first, second, third, fourth]);
      v.Some? && v.value.S64? && v.value.s64 == ProbeClient.ToSint64(first, second, third, fourth)
  {
    var data := [first, second, third, fourth];
    WordsAgree64(first, second, third, fourth);
    Signed64Arm(data);
    ProbeClient.Sint64Value(first, second, third, fourth);
    assert SignedWordsValue(data, 4) == Signed(WordsValue(data, 4), 64);
  }

  lemma WordsAgree64(first: u16, second: u16, third: u16, fourth: u16)
    ensures WordsValue([first, second, third, fourth], 4) == ProbeClient.ToUint64(first, second, third, fourth)
  {
    ParseUnsigned(RegisterKind.U64(Plain), [first, second, third, fourth]);
    ProbeClient.Uint64Value(first, second, third, fourth);
  }

  lemma Signed64Arm(data: seq<u16>)
    requires |data| == 4
    ensures ParseValue(RegisterKind.S64(Plain), data) == Some(RegisterValue.S64(SignedWordsValue(data, 4)))
  {
  }

  lemma RawBytesAgree(registers: seq<u16>)
    ensures ProbeClient.ToRawBytes(registers) == StringBytes(registers)
  {
    forall k | 0 <= k < 2 * |registers|
      ensures ProbeClient.ToRawBytes(registers)[k] == StringBytes(registers)[k]
    {
      var i := k / 2;
      ProbeClient.RawBytesLayout(registers, i);
      StringBytesLayout(registers, i);
      assert k == 2 * i || k == 2 * i + 1;
    }
  }
}
