/**
 * The static converters of the probe's pull client (src/probe/probe/pull.py). They are the same code
 * as the probe client's, so each one here is that converter; the lemmas state the properties the
 * pull client relies on.
 */
module ProbePull {
  import opened Bits
  import ProbeClient

  function ToUint32(first: nat, second: nat): nat { ProbeClient.ToUint32(first, second) }

  function ToUint64(first: nat, second: nat, third: nat, fourth: nat): nat
  {
    ProbeClient.ToUint64(first, second, third, fourth)
  }

  function ToSint32(upperHalf: nat, lowerHalf: nat): int { ProbeClient.ToSint32(upperHalf, lowerHalf) }

  function ToSint16(register: int): int { ProbeClient.ToSint16(register) }

  function ToRawBytes(registers: seq<nat>): seq<nat> { ProbeClient.ToRawBytes(registers) }

  lemma Uint32Value(first: nat, second: nat)
    requires first < 0x1_0000 && second < 0x1_0000
    ensures ToUint32(first, second) == first * 0x1_0000 + second
  {
    ProbeClient.Uint32Value(first, second);
  }

  /** The four words combine most significant first: the same as two 32-bit halves. */
  lemma Uint64Value(first: nat, second: nat, third: nat, fourth: nat)
    requires first < 0x1_0000 && second < 0x1_0000 && third < 0x1_0000 && fourth < 0x1_0000
    ensures ToUint64(first, second, third, fourth)
      == ToUint32(first, second) * 0x1_0000_0000 + ToUint32(third, fourth)
  {
    ProbeClient.Uint64Value(first, second, third, fourth);
    ProbeClient.Uint32Value(first, second);
    ProbeClient.Uint32Value(third, fourth);
  }

  /** 2^32 is subtracted exactly when the combined value is at least 2^31, that is bit 31 is set. */
  lemma Sint32Subtracts(upperHalf: nat, lowerHalf: nat)
    requires upperHalf < 0x1_0000 && lowerHalf < 0x1_0000
    ensures ToUint32(upperHalf, lowerHalf) >= 0x8000_0000 ==>
      ToSint32(upperHalf, lowerHalf) == ToUint32(upperHalf, lowerHalf) - 0x1_0000_0000
    ensures ToUint32(upperHalf, lowerHalf) < 0x8000_0000 ==>
      ToSint32(upperHalf, lowerHalf) == ToUint32(upperHalf, lowerHalf)
  {
    ProbeClient.Uint32Value(upperHalf, lowerHalf);
    Pow2Constants();
    ProbeClient.TopBit(ToUint32(upperHalf, lowerHalf), 31);
  }

  /** `to_sint16` maps the registers [0, 65536) one to one onto [-32768, 32767]. */
  lemma Sint16Onto(value: int)
    requires -0x8000 <= value < 0x8000
    ensures 0 <= value % 0x1_0000 < 0x1_0000 && ToSint16(value % 0x1_0000) == value
    ensures forall r: nat {:trigger ToSint16(r)} :: r < 0x1_0000 && ToSint16(r) == value ==> r == value % 0x1_0000
  {
    if value >= 0 {
      DivModUnique(value, 0x1_0000, 0, value);
    } else {
      DivModUnique(value, 0x1_0000, -1, value + 0x1_0000);
    }
  }

  /** The raw bytes of consecutive register blocks are the blocks' raw bytes in the same order. */
  lemma {:induction false} RawBytesConcat(front: seq<nat>, back: seq<nat>)
    ensures ToRawBytes(front + back) == ToRawBytes(front) + ToRawBytes(back)
  {
    if |front| > 0 {
      assert (front + back)[1..] == front[1..] + back;
      RawBytesConcat(front[1..], back);
    } else {
      assert front + back == back;
    }
  }

  /** Two bytes per register, high byte first. */
  lemma RawBytesLayout(registers: seq<nat>, i: nat)
    requires i < |registers| && registers[i] < 0x1_0000
    ensures |ToRawBytes(registers)| == 2 * |registers|
    ensures ToRawBytes(registers)[2 * i] == registers[i] / 256
    ensures ToRawBytes(registers)[2 * i + 1] == registers[i] % 256
  {
    ProbeClient.RawBytesLayout(registers, i);
  }
}
