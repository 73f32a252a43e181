/**
 * The static register converters of the Python probe client (src/probe/probe/client.py). Python
 * integers are unbounded, so the shifts, ors and ands are taken on naturals; the lemmas state what
 * the converters compute for the 16-bit registers a Modbus read returns.
 */
module ProbeClient {
  import opened Bits

  /** `to_uint32`: `(first << 16) | second`. */
  function ToUint32(first: nat, second: nat): nat
  {
    BitOr(Shl(first, 16), second)
  }

  /** `to_uint64`: the four words shifted into place and or-ed from the left. */
  function ToUint64(first: nat, second: nat, third: nat, fourth: nat): nat
  {
    BitOr(BitOr(BitOr(Shl(first, 48), Shl(second, 32)), Shl(third, 16)), fourth)
  }

  /** `to_sint32`: subtract 2^32 from the combination when its bit 31 is set. */
  function ToSint32(upperHalf: nat, lowerHalf: nat): int
  {
    var combined := ToUint32(upperHalf, lowerHalf);
    if BitAnd(combined, 0x8000_0000) != 0 then combined - 0x1_0000_0000 else combined
  }

  /** `to_sint64`: subtract 2^64 from the combination when its bit 63 is set. */
  function ToSint64(first: nat, second: nat, third: nat, fourth: nat): int
  {
    var combined := ToUint64(first, second, third, fourth);
    if BitAnd(combined, 0x8000_0000_0000_0000) != 0 then combined - 0x1_0000_0000_0000_0000 else combined
  }

  /** `to_sint16`. */
  function ToSint16(register: int): int
  {
    if register < 0x8000 then register else register - 0x1_0000
  }

  /** `to_raw_bytes`: for each register, `(r >> 8) & 0xFF` then `r & 0xFF`. */
  function ToRawBytes(registers: seq<nat>): (bytes: seq<nat>)
    ensures |bytes| == 2 * |registers|
  {
    if |registers| == 0 then []
    else
      var r := registers[0];
      [BitAnd(Shr(r, 8), 0xFF), BitAnd(r, 0xFF)] + ToRawBytes(registers[1..])
  }

  lemma {:induction false} Uint32Value(first: nat, second: nat)
    requires first < 0x1_0000 && second < 0x1_0000
    ensures ToUint32(first, second) == first * 0x1_0000 + second
    ensures ToUint32(first, second) < 0x1_0000_0000
  {
    Pow2Constants();
    OrDisjoint(first, second, 16);
  }

  lemma {:induction false} Uint64Value(first: nat, second: nat, third: nat, fourth: nat)
    requires first < 0x1_0000 && second < 0x1_0000 && third < 0x1_0000 && fourth < 0x1_0000
    ensures ToUint64(first, second, third, fourth)
      == first * 0x1_0000_0000_0000 + second * 0x1_0000_0000 + third * 0x1_0000 + fourth
    ensures ToUint64(first, second, third, fourth) < 0x1_0000_0000_0000_0000
  {
    Pow2Constants();
    var s1, s2, s3 := Shl(first, 48), Shl(second, 32), Shl(third, 16);
    assert s1 == first * 0x1_0000_0000_0000 && s2 == second * 0x1_0000_0000 && s3 == third * 0x1_0000;
    var top := first * 0x1_0000 + second;
    var mid := top * 0x1_0000 + third;
    assert Shl(top, 32) == s1 + s2 by {
      assert Shl(top, 32) == top * 0x1_0000_0000;
    }
    assert Shl(mid, 16) == s1 + s2 + s3 by {
      assert Shl(mid, 16) == mid * 0x1_0000;
    }
    OrDisjoint(first, s2, 48);
    var a := BitOr(s1, s2);
    assert a == Shl(top, 32);
    OrDisjoint(top, s3, 32);
    var b := BitOr(a, s3);
    assert b == Shl(mid, 16);
    OrDisjoint(mid, fourth, 16);
    assert ToUint64(first, second, third, fourth) == BitOr(b, fourth) == s1 + s2 + s3 + fourth;
  }

  /** Bit k of a number below 2^(k+1) is set exactly when the number is at least 2^k. */
  lemma TopBit(x: nat, k: nat)
    requires x < 2 * Pow2(k)
    ensures BitAnd(x, Pow2(k)) != 0 <==> x >= Pow2(k)
  {
    AndBit(x, k);
    if x >= Pow2(k) {
      DivModUnique(x, Pow2(k), 1, x - Pow2(k));
    } else {
      DivModUnique(x, Pow2(k), 0, x);
    }
  }

  /** `to_sint32` is the two's-complement reading of `to_uint32`. */
  lemma Sint32Value(upperHalf: nat, lowerHalf: nat)
    requires upperHalf < 0x1_0000 && lowerHalf < 0x1_0000
    ensures ToSint32(upperHalf, lowerHalf) == Signed(ToUint32(upperHalf, lowerHalf), 32)
    ensures -0x8000_0000 <= ToSint32(upperHalf, lowerHalf) < 0x8000_0000
    ensures ToSint32(upperHalf, lowerHalf) % 0x1_0000_0000 == ToUint32(upperHalf, lowerHalf)
  {
    Uint32Value(upperHalf, lowerHalf);
    Pow2Constants();
    TopBit(ToUint32(upperHalf, lowerHalf), 31);
    SignedRange(ToUint32(upperHalf, lowerHalf), 32);
  }

  /** `to_sint64` is the two's-complement reading of `to_uint64`. */
  lemma Sint64Value(first: nat, second: nat, third: nat, fourth: nat)
    requires first < 0x1_0000 && second < 0x1_0000 && third < 0x1_0000 && fourth < 0x1_0000
    ensures ToSint64(first, second, third, fourth) == Signed(ToUint64(first, second, third, fourth), 64)
    ensures -0x8000_0000_0000_0000 <= ToSint64(first, second, third, fourth) < 0x8000_0000_0000_0000
    ensures ToSint64(first, second, third, fourth) % 0x1_0000_0000_0000_0000
      == ToUint64(first, second, third, fourth)
  {
    Uint64Value(first, second, third, fourth);
    Pow2Constants();
    TopBit(ToUint64(first, second, third, fourth), 63);
    SignedRange(ToUint64(first, second, third, fourth), 64);
  }

  lemma Sint16Value(register: nat)
    requires register < 0x1_0000
    ensures ToSint16(register) == Signed(register, 16)
    ensures -0x8000 <= ToSint16(register) < 0x8000
    ensures ToSint16(register) % 0x1_0000 == register
  {
    Pow2Constants();
    SignedRange(register, 16);
  }

  /** Byte 2i is the high byte and byte 2i+1 the low byte of register i; together they recover it. */
  lemma {:induction false} RawBytesLayout(registers: seq<nat>, i: nat)
    requires i < |registers| && registers[i] < 0x1_0000
    ensures ToRawBytes(registers)[2 * i] == registers[i] / 256 < 256
    ensures ToRawBytes(registers)[2 * i + 1] == registers[i] % 256
    ensures ToRawBytes(registers)[2 * i] * 256 + ToRawBytes(registers)[2 * i + 1] == registers[i]
  {
    if i == 0 {
      var r := registers[0];
      Pow2Constants();
      AndLowMask(r, 8);
      AndLowMask(Shr(r, 8), 8);
      DivModUnique(r / 256, 256, 0, r / 256);
    } else {
      RawBytesLayout(registers[1..], i - 1);
      assert ToRawBytes(registers)[2 * i] == ToRawBytes(registers[1..])[2 * (i - 1)];
      assert ToRawBytes(registers)[2 * i + 1] == ToRawBytes(registers[1..])[2 * (i - 1) + 1];
    }
  }

  lemma HeadBytes(r: nat)
    ensures BitAnd(Shr(r, 8), 0xFF) < 256 && BitAnd(r, 0xFF) < 256
  {
    assert Pow2(8) == 256;
    AndLowMask(r, 8);
    AndLowMask(Shr(r, 8), 8);
  }

  /** Whatever the inputs, every raw byte is below 256. */
  lemma {:induction false} RawBytesAreBytes(registers: seq<nat>)
    ensures forall i :: 0 <= i < |ToRawBytes(registers)| ==> ToRawBytes(registers)[i] < 256
  {
    if |registers| > 0 {
      var r := registers[0];
      var rest := ToRawBytes(registers[1..]);
      var head := [BitAnd(Shr(r, 8), 0xFF), BitAnd(r, 0xFF)];
      assert ToRawBytes(registers) == head + rest;
      HeadBytes(r);
      RawBytesAreBytes(registers[1..]);
      forall i | 0 <= i < |head + rest| ensures (head + rest)[i] < 256 {
        if i >= 2 {
          assert (head + rest)[i] == rest[i - 2];
        }
      }
    }
  }
}
