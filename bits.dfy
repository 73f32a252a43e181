/**
 * Bit arithmetic on unbounded non-negative integers, as Python evaluates `<<`, `>>`, `|` and `&`,
 * and the fixed-width views (bytes, 16-bit words, two's complement) that Rust's integer types give.
 */
module Bits {

  type byte = x: int | 0 <= x < 256
  type u16 = x: int | 0 <= x < 0x1_0000
  type u32 = x: int | 0 <= x < 0x1_0000_0000
  type u64 = x: int | 0 <= x < 0x1_0000_0000_0000_0000
  type i16 = x: int | -0x8000 <= x < 0x8000
  type i32 = x: int | -0x8000_0000 <= x < 0x8000_0000
  type i64 = x: int | -0x8000_0000_0000_0000 <= x < 0x8000_0000_0000_0000

  /** 2^k */
  function Pow2(k: nat): (r: nat)
    ensures r >= 1
  {
    if k == 0 then 1 else 2 * Pow2(k - 1)
  }
  lemma {:induction false} Pow2Add(a: nat, b: nat)
    ensures Pow2(a + b) == Pow2(a) * Pow2(b)
  {
    if a > 0 {
      Pow2Add(a - 1, b);
      assert Pow2(a + b) == 2 * Pow2(a - 1 + b);
    }
  }
  lemma Pow2Constants()
    ensures Pow2(8) == 256 && Pow2(15) == 0x8000 && Pow2(16) == 0x1_0000
    ensures Pow2(31) == 0x8000_0000 && Pow2(32) == 0x1_0000_0000
    ensures Pow2(48) == 0x1_0000_0000_0000
    ensures Pow2(63) == 0x8000_0000_0000_0000 && Pow2(64) == 0x1_0000_0000_0000_0000
  {
    assert Pow2(8) == 256 && Pow2(15) == 0x8000 && Pow2(16) == 0x1_0000;
    Pow2Add(16, 15);
    Pow2Add(16, 16);
    Pow2Add(32, 16);
    Pow2Add(48, 15);
    Pow2Add(48, 16);
  }
  lemma DivModUnique(x: int, d: int, q: int, r: int)
    requires d > 0 && 0 <= r < d && x == d * q + r
    ensures x / d == q && x % d == r
  {
    var q', r' := x / d, x % d;
    assert d * (q - q') == r' - r;
    assert q - q' >= 1 ==> d * (q - q') >= d * 1;
    assert q - q' <= -1 ==> d * (q' - q) >= d * 1;
  }
  /** Four 16-bit words in Horner form and as a sum of powers of 2^16. */
  lemma Horner4(a: int, b: int, c: int, d: int)
    ensures ((a * 0x1_0000 + b) * 0x1_0000 + c) * 0x1_0000 + d
      == a * 0x1_0000_0000_0000 + b * 0x1_0000_0000 + c * 0x1_0000 + d
  {
    calc {
      ((a * 0x1_0000 + b) * 0x1_0000 + c) * 0x1_0000 + d;
      (a * 0x1_0000 + b) * 0x1_0000_0000 + c * 0x1_0000 + d;
      a * 0x1_0000_0000_0000 + b * 0x1_0000_0000 + c * 0x1_0000 + d;
    }
  }

  /** `a << k` */
  function Shl(a: nat, k: nat): nat { a * Pow2(k) }
  /** `a | b`, bit by bit from the least significant bit up. */
  function BitOr(a: nat, b: nat): nat
    decreases a + b
  {
    if a == 0 then b
    else if b == 0 then a
    else 2 * BitOr(a / 2, b / 2) + (if a % 2 == 1 || b % 2 == 1 then 1 else 0)
  }
  /** `a & b`, bit by bit from the least significant bit up. */
  function BitAnd(a: nat, b: nat): nat
    decreases a + b
  {
    if a == 0 || b == 0 then 0
    else 2 * BitAnd(a / 2, b / 2) + (if a % 2 == 1 && b % 2 == 1 then 1 else 0)
  }
  /** Or-ing in a value that fits below bit k adds it. */
  lemma {:induction false} OrDisjoint(a: nat, b: nat, k: nat)
    requires b < Pow2(k)
    ensures BitOr(Shl(a, k), b) == Shl(a, k) + b
  {
    var x := a * Pow2(k);
    if k == 0 || x == 0 || b == 0 {
    } else {
      var h := a * Pow2(k - 1);
      assert x == 2 * h by {
        assert Pow2(k) == 2 * Pow2(k - 1);
        assert a * (2 * Pow2(k - 1)) == 2 * (a * Pow2(k - 1));
      }
      DivModUnique(x, 2, h, 0);
      OrDisjoint(a, b / 2, k - 1);
      assert BitOr(h, b / 2) == h + b / 2;
    }
  }
  lemma DivModStep(x: nat, p: nat)
    requires p >= 1
    ensures x % (2 * p) == 2 * ((x / 2) % p) + x % 2
    ensures x / (2 * p) == (x / 2) / p
  {
    var q := (x / 2) / p;
    var r := (x / 2) % p;
    assert x / 2 == p * q + r;
    assert x == 2 * (x / 2) + x % 2;
    assert x == (2 * p) * q + (2 * r + x % 2);
    DivModUnique(x, 2 * p, q, 2 * r + x % 2);
  }
  /** Masking with 2^k - 1 keeps the low k bits. */
  lemma {:induction false} AndLowMask(x: nat, k: nat)
    ensures BitAnd(x, Pow2(k) - 1) == x % Pow2(k)
  {
    if k == 0 {
      assert Pow2(k) - 1 == 0;
      assert x % 1 == 0;
    } else if x == 0 {
      assert 0 % Pow2(k) == 0;
    } else {
      var p := Pow2(k - 1);
      var m: nat := Pow2(k) - 1;
      assert m == 2 * (p - 1) + 1;
      assert m / 2 == p - 1 && m % 2 == 1 by { DivModUnique(m, 2, p - 1, 1); }
      assert BitAnd(x, m) == 2 * BitAnd(x / 2, m / 2) + (if x % 2 == 1 && m % 2 == 1 then 1 else 0);
      AndLowMask(x / 2, k - 1);
      assert BitAnd(x / 2, p - 1) == (x / 2) % p;
      assert BitAnd(x, m) == 2 * ((x / 2) % p) + x % 2;
      DivModStep(x, p);
      assert Pow2(k) == 2 * p;
      assert x % Pow2(k) == x % (2 * p);
    }
  }
  /** Masking with 2^k tests bit k. */
  lemma {:induction false} AndBit(x: nat, k: nat)
    ensures BitAnd(x, Pow2(k)) == if (x / Pow2(k)) % 2 == 1 then Pow2(k) else 0
  {
    if x == 0 {
    } else if k == 0 {
      assert BitAnd(x, 1) == 2 * BitAnd(x / 2, 0) + (if x % 2 == 1 then 1 else 0);
    } else {
      var p := Pow2(k - 1);
      assert Pow2(k) == 2 * p;
      DivModUnique(Pow2(k), 2, p, 0);
      AndBit(x / 2, k - 1);
      assert BitAnd(x, Pow2(k)) == 2 * BitAnd(x / 2, p);
      DivModStep(x, p);
    }
  }

  /** `a >> k` on a non-negative operand */
  function Shr(a: nat, k: nat): nat
  {
    var p := Pow2(k);
    DivOfNatural(a, p);
    a / p
  }

  lemma DivOfNatural(a: nat, p: nat)
    requires p >= 1
    ensures a / p >= 0
  {
    DivModUnique(a, p, a / p, a % p);
  }

  /** The two's-complement reading of an unsigned `bits`-wide pattern (`uN as iN`). */
  function Signed(u: nat, bits: nat): int
    requires bits >= 1
  {
    if u < Pow2(bits - 1) then u else u - Pow2(bits)
  }

  lemma SignedRange(u: nat, bits: nat)
    requires bits >= 1 && u < Pow2(bits)
    ensures -(Pow2(bits - 1) as int) <= Signed(u, bits) < Pow2(bits - 1)
    ensures Signed(u, bits) % Pow2(bits) == u
  {
    assert Pow2(bits) == 2 * Pow2(bits - 1);
    if u >= Pow2(bits - 1) {
      DivModUnique(u - Pow2(bits), Pow2(bits), -1, u);
    } else {
      DivModUnique(u, Pow2(bits), 0, u);
    }
  }

  /** Little-endian bytes to an unsigned integer, `uN::from_le_bytes`. */
  function LeValue(bs: seq<byte>): nat
  {
    if |bs| == 0 then 0 else bs[0] + 256 * LeValue(bs[1..])
  }

  /** 16-bit words read as one unsigned integer, the first word most significant. */
  function BeWords(ws: seq<u16>): nat
  {
    if |ws| == 0 then 0 else BeWords(ws[..|ws| - 1]) * 0x1_0000 + ws[|ws| - 1]
  }

  lemma {:induction false} BeWordsBound(ws: seq<u16>)
    ensures BeWords(ws) < Pow2(16 * |ws|)
  {
    if |ws| > 0 {
      var init := ws[..|ws| - 1];
      BeWordsBound(init);
      Pow2Add(16 * |init|, 16);
      Pow2Constants();
      var b := BeWords(init);
      assert b + 1 <= Pow2(16 * |init|);
      assert (b + 1) * 0x1_0000 <= Pow2(16 * |init|) * 0x1_0000;
    }
  }

  /** The low byte of a 16-bit word, `(value & 0xFF) as u8`. */
  function LowByte(w: u16): (b: byte)
    ensures b == w % 256
  {
    Pow2Constants();
    AndLowMask(w, 8);
    BitAnd(w, 0xFF)
  }

  /** The high byte of a 16-bit word, `(value >> 8) as u8`. */
  function HighByte(w: u16): (b: byte)
    ensures b == w / 256
  {
    Pow2Constants();
    Shr(w, 8)
  }
}
